/**
 Two runs of the booking protocol in which a flush leaves a column out that the request meant to write: a reschedule
 that does not move the interview, and a booking that keeps an old SEQUENCE.
 */
module LostWrites {
  import opened Basics
  import opened Slots
  import opened Booking
  import opened SampleRuns

  const LATER := 8 * DAY

  // ---------------------------------------------------------------- a reschedule that stays

  // The interview stands at next week's Friday; somebody has it on the screen and asks for that very time.
  const THERE := BOOKED.(start := Some(LATER), sequence := 1)
  const STAYING := Request(Reschedule, 0, LATER, Loaded, THERE, 2)
  const MOVING := Request(Reschedule, 0, HALF_PAST, Loaded, THERE, 2)
  const HERE := BOOKED.(sequence := 2)

  const TWO := [Commit(0, Book, 0), Commit(0, Reschedule, 1)]

  // Meanwhile another request moves it to this Friday, half past midnight ...
  function MovesAway(): seq<Event> {
    [Load(4, Reschedule, 0, LATER)] + [Load(5, Reschedule, 0, HALF_PAST)] + [CheckOffered(5, 0, 0, OPEN_FRIDAY, true)]
    + [Lock(5)] + [Refresh(5)] + [CheckUnbooked(5, true)] + [Write(5, true)]
  }

  // ... and once that Friday has begun the first one goes on.
  function GoesOn(): seq<Event> {
    [CheckOffered(4, DAY, 0, OPEN_FRIDAY, true)] + [Lock(4)] + [Refresh(4)] + [CheckUnbooked(4, true)] + [Write(4, true)]
  }

  lemma MovingIsOffered(table: Table)
    requires table == map[0 := THERE]
    ensures IsOffered(table, Memory(MOVING, true), MOVING, 0, 0, OPEN_FRIDAY)
    ensures forall phase, sequence ::
              var q := MOVING.(phase := phase, copy := THERE.(sequence := sequence)); IsUnbooked(table, Memory(q, true), q)
  {
    assert LocalDay(HALF_PAST, 0) == 1 && TimeOfDay(HALF_PAST, 0) == 30 * MINUTE && DayOfWeek(1) == 4;
  }

  lemma StayingIsOffered(table: Table)
    requires table == map[0 := HERE]
    ensures IsOffered(table, Memory(STAYING, true), STAYING, DAY, 0, OPEN_FRIDAY)
    ensures forall phase, sequence ::
              var q := STAYING.(phase := phase, copy := THERE.(sequence := sequence)); IsUnbooked(table, Memory(q, true), q)
  {
    assert LocalDay(DAY, 0) == 1 && LocalDay(LATER, 0) == 8 && TimeOfDay(LATER, 0) == 0 && DayOfWeek(8) == 4;
  }

  lemma ItMovesAway(s: State)
    requires s == State(map[0 := THERE], map[], map[], TWO)
    ensures IsRun(s, MovesAway())
    ensures After(s, MovesAway()) == State(map[0 := HERE], map[4 := STAYING], map[], TWO + [Commit(0, Reschedule, 2)])
  {
    OneStep(s, Load(4, Reschedule, 0, LATER));
    OneMore(s, [Load(4, Reschedule, 0, LATER)], Load(5, Reschedule, 0, HALF_PAST));
    var e2 := [Load(4, Reschedule, 0, LATER)] + [Load(5, Reschedule, 0, HALF_PAST)];
    assert After(s, e2) == s.(requests := map[4 := STAYING, 5 := MOVING]);
    MovingIsOffered(s.table);
    OneMore(s, e2, CheckOffered(5, 0, 0, OPEN_FRIDAY, true));
    var e3 := e2 + [CheckOffered(5, 0, 0, OPEN_FRIDAY, true)];
    assert After(s, e3) == s.(requests := map[4 := STAYING, 5 := MOVING.(phase := Offered)]);
    OneMore(s, e3, Lock(5));
    OneMore(s, e3 + [Lock(5)], Refresh(5));
    var e5 := e3 + [Lock(5)] + [Refresh(5)];
    var s5 := s.(requests := map[4 := STAYING, 5 := MOVING.(phase := Refreshed)], locks := map[7 := 5]);
    assert After(s, e5) == s5;
    MoveIsWritten(s5);
    OneMore(s, e5, CheckUnbooked(5, true));
    OneMore(s, e5 + [CheckUnbooked(5, true)], Write(5, true));
  }

  lemma MoveIsWritten(s: State)
    requires s == State(map[0 := THERE], map[4 := STAYING, 5 := MOVING.(phase := Refreshed)], map[7 := 5], TWO)
    ensures Enabled(s, CheckUnbooked(5, true))
    ensures var s' := Next(s, CheckUnbooked(5, true));
            && Enabled(s', Write(5, true))
            && Next(s', Write(5, true)) == State(map[0 := HERE], map[4 := STAYING], map[], TWO + [Commit(0, Reschedule, 2)])
  {
    MovingIsOffered(s.table);
    var s' := Next(s, CheckUnbooked(5, true));
    assert s'.requests - {5} == map[4 := STAYING];
    assert Drop(s', 5).locks == map[];
  }

  lemma ItGoesOn(s: State)
    requires s == State(map[0 := HERE], map[4 := STAYING], map[], TWO + [Commit(0, Reschedule, 2)])
    ensures IsRun(s, GoesOn())
    ensures After(s, GoesOn()).table == map[0 := HERE.(sequence := 3)]
    ensures After(s, GoesOn()).log == TWO + [Commit(0, Reschedule, 2)] + [Commit(0, Reschedule, 3)]
  {
    StayingIsOffered(s.table);
    var e1 := CheckOffered(4, DAY, 0, OPEN_FRIDAY, true);
    OneStep(s, e1);
    OneMore(s, [e1], Lock(4));
    OneMore(s, [e1] + [Lock(4)], Refresh(4));
    var e3 := [e1] + [Lock(4)] + [Refresh(4)];
    var held := STAYING.(phase := Refreshed, copy := THERE.(sequence := 2));
    assert After(s, e3) == s.(requests := map[4 := held], locks := map[7 := 4]);
    OneMore(s, e3, CheckUnbooked(4, true));
    OneMore(s, e3 + [CheckUnbooked(4, true)], Write(4, true));
  }

  // How it got there: booked, and rescheduled once.
  const FIRST_MOVE := Request(Reschedule, 0, LATER, Loaded, BOOKED, 1)

  function MovesThere(): seq<Event> {
    [Load(3, Reschedule, 0, LATER)] + [CheckOffered(3, 0, 0, OPEN_FRIDAY, true)]
    + [Lock(3)] + [Refresh(3)] + [CheckUnbooked(3, true)] + [Write(3, true)]
  }

  lemma FirstMoveIsOffered(table: Table)
    requires table == map[0 := BOOKED]
    ensures IsOffered(table, Memory(FIRST_MOVE, true), FIRST_MOVE, 0, 0, OPEN_FRIDAY)
    ensures forall phase :: IsUnbooked(table, Memory(FIRST_MOVE, true), FIRST_MOVE.(phase := phase))
  {
    assert LocalDay(LATER, 0) == 8 && TimeOfDay(LATER, 0) == 0 && DayOfWeek(8) == 4;
  }

  // With any other requests waiting.
  lemma ItMovesThere(s: State)
    requires s == State(map[0 := BOOKED], s.requests, map[], [Commit(0, Book, 0)]) && 3 !in s.requests
    ensures IsRun(s, MovesThere()) && After(s, MovesThere()) == State(map[0 := THERE], s.requests, map[], TWO)
  {
    OneStep(s, Load(3, Reschedule, 0, LATER));
    FirstMoveIsOffered(s.table);
    var e1 := [Load(3, Reschedule, 0, LATER)];
    assert After(s, e1) == s.(requests := s.requests[3 := FIRST_MOVE]);
    OneMore(s, e1, CheckOffered(3, 0, 0, OPEN_FRIDAY, true));
    var e2 := e1 + [CheckOffered(3, 0, 0, OPEN_FRIDAY, true)];
    OneMore(s, e2, Lock(3));
    OneMore(s, e2 + [Lock(3)], Refresh(3));
    var e4 := e2 + [Lock(3)] + [Refresh(3)];
    var s4 := s.(requests := s.requests[3 := FIRST_MOVE.(phase := Refreshed)], locks := map[7 := 3]);
    assert After(s, e4) == s4;
    FirstMoveIsWritten(s4, s.requests);
    OneMore(s, e4, CheckUnbooked(3, true));
    OneMore(s, e4 + [CheckUnbooked(3, true)], Write(3, true));
  }

  lemma FirstMoveIsWritten(s: State, others: map<RequestId, Request>)
    requires 3 !in others
    requires s == State(map[0 := BOOKED], others[3 := FIRST_MOVE.(phase := Refreshed)], map[7 := 3], [Commit(0, Book, 0)])
    ensures Enabled(s, CheckUnbooked(3, true))
    ensures var s' := Next(s, CheckUnbooked(3, true));
            Enabled(s', Write(3, true)) && Next(s', Write(3, true)) == State(map[0 := THERE], others, map[], TWO)
  {
    FirstMoveIsOffered(s.table);
    var s' := Next(s, CheckUnbooked(3, true));
    assert s'.requests - {3} == others;
    assert Drop(s', 3).locks == map[];
  }

  /** A reschedule to the time its page shows, while the interview was moved since, is committed with a new SEQUENCE and
      leaves the interview where it was moved to: the column looked unchanged. */
  lemma RescheduleStays()
    ensures var events := FirstBooking() + (MovesThere() + (MovesAway() + GoesOn()));
            && IsRun(EMPTY, events)
            && var t := After(EMPTY, events);
               && |t.log| == 4 && t.log[3] == Commit(0, Reschedule, 3)
               && 0 in t.table && t.table[0].start == Some(HALF_PAST) && t.table[0].start != Some(LATER)
  {
    hide FirstBooking, MovesThere, MovesAway, GoesOn;
    FirstIsBooked();
    var s1 := After(EMPTY, FirstBooking());
    ItMovesThere(s1);
    var s2 := After(s1, MovesThere());
    ItMovesAway(s2);
    ItGoesOn(After(s2, MovesAway()));
    RunsJoin(s2, MovesAway(), GoesOn());
    RunsJoin(s1, MovesThere(), MovesAway() + GoesOn());
    RunsJoin(EMPTY, FirstBooking(), MovesThere() + (MovesAway() + GoesOn()));
  }

  // ---------------------------------------------------------------- a booking that keeps a number

  // A second tab loaded the invitation while it was pending, and got its start offered.
  const TAB := Request(Book, 0, LATER, Offered, ROW, 0)
  const GONE := THERE.(status := Cancelled)

  function TabOpens(): seq<Event> {
    [Create(0, 3, 7, 60)] + [Load(9, Book, 0, LATER)] + [CheckOffered(9, 0, 0, OPEN_FRIDAY, true)]
  }

  function FirstTabBooks(): seq<Event> {
    [Load(1, Book, 0, HALF_PAST)] + [CheckOffered(1, 0, 0, OPEN_FRIDAY, true)]
    + [Lock(1)] + [Refresh(1)] + [CheckUnbooked(1, true)] + [Write(1, true)]
  }

  function MovedAndCancelled(): seq<Event> {
    MovesThere() + ([Load(2, Cancel, 0, 0)] + [WriteCancel(2)])
  }

  function SecondTabBooks(): seq<Event> { [Lock(9)] + [Refresh(9)] + [CheckUnbooked(9, true)] + [Write(9, true)] }

  lemma PendingIsOffered(table: Table, q: Request)
    requires table == map[0 := ROW] && q.copy == ROW && q.id == 0 && (q.start == LATER || q.start == HALF_PAST)
    ensures IsOffered(table, Memory(q, true), q, 0, 0, OPEN_FRIDAY) && IsUnbooked(table, Memory(q, true), q)
  {
    assert LocalDay(LATER, 0) == 8 && TimeOfDay(LATER, 0) == 0 && DayOfWeek(8) == 4;
    assert LocalDay(HALF_PAST, 0) == 1 && TimeOfDay(HALF_PAST, 0) == 30 * MINUTE && DayOfWeek(1) == 4;
  }

  lemma ItOpens()
    ensures IsRun(EMPTY, TabOpens()) && After(EMPTY, TabOpens()) == State(map[0 := ROW], map[9 := TAB], map[], [])
  {
    OneStep(EMPTY, Create(0, 3, 7, 60));
    OneMore(EMPTY, [Create(0, 3, 7, 60)], Load(9, Book, 0, LATER));
    var e2 := [Create(0, 3, 7, 60)] + [Load(9, Book, 0, LATER)];
    var q := TAB.(phase := Loaded);
    assert After(EMPTY, e2) == State(map[0 := ROW], map[9 := q], map[], []);
    PendingIsOffered(map[0 := ROW], q);
    OneMore(EMPTY, e2, CheckOffered(9, 0, 0, OPEN_FRIDAY, true));
  }

  lemma FirstTab(s: State)
    requires s == State(map[0 := ROW], map[9 := TAB], map[], [])
    ensures IsRun(s, FirstTabBooks())
    ensures After(s, FirstTabBooks()) == State(map[0 := BOOKED], map[9 := TAB], map[], [Commit(0, Book, 0)])
  {
    var e1 := [Load(1, Book, 0, HALF_PAST)];
    OneStep(s, Load(1, Book, 0, HALF_PAST));
    assert After(s, e1) == s.(requests := map[9 := TAB, 1 := ASKING]);
    PendingIsOffered(s.table, ASKING);
    OneMore(s, e1, CheckOffered(1, 0, 0, OPEN_FRIDAY, true));
    var e2 := e1 + [CheckOffered(1, 0, 0, OPEN_FRIDAY, true)];
    OneMore(s, e2, Lock(1));
    OneMore(s, e2 + [Lock(1)], Refresh(1));
    var e4 := e2 + [Lock(1)] + [Refresh(1)];
    var s4 := s.(requests := map[9 := TAB, 1 := ASKING.(phase := Refreshed)], locks := map[7 := 1]);
    assert After(s, e4) == s4;
    FirstTabIsWritten(s4);
    OneMore(s, e4, CheckUnbooked(1, true));
    OneMore(s, e4 + [CheckUnbooked(1, true)], Write(1, true));
  }

  lemma FirstTabIsWritten(s: State)
    requires s == State(map[0 := ROW], map[9 := TAB, 1 := ASKING.(phase := Refreshed)], map[7 := 1], [])
    ensures Enabled(s, CheckUnbooked(1, true))
    ensures var s' := Next(s, CheckUnbooked(1, true));
            && Enabled(s', Write(1, true))
            && Next(s', Write(1, true)) == State(map[0 := BOOKED], map[9 := TAB], map[], [Commit(0, Book, 0)])
  {
    PendingIsOffered(s.table, ASKING.(phase := Refreshed));
    var s' := Next(s, CheckUnbooked(1, true));
    assert s'.requests - {1} == map[9 := TAB];
    assert Drop(s', 1).locks == map[];
  }

  lemma ItIsCancelled(s: State)
    requires s == State(map[0 := BOOKED], map[9 := TAB], map[], [Commit(0, Book, 0)])
    ensures IsRun(s, MovedAndCancelled())
    ensures After(s, MovedAndCancelled()) == State(map[0 := GONE], map[9 := TAB], map[], TWO)
  {
    ItMovesThere(s);
    hide MovesThere;
    var t := After(s, MovesThere());
    CancelComesAndGoes(t);
    RunsJoin(s, MovesThere(), [Load(2, Cancel, 0, 0)] + [WriteCancel(2)]);
  }

  lemma CancelComesAndGoes(s: State)
    requires s == State(map[0 := THERE], map[9 := TAB], map[], TWO)
    ensures IsRun(s, [Load(2, Cancel, 0, 0)] + [WriteCancel(2)])
    ensures After(s, [Load(2, Cancel, 0, 0)] + [WriteCancel(2)]) == s.(table := map[0 := GONE])
  {
    OneStep(s, Load(2, Cancel, 0, 0));
    var t := Next(s, Load(2, Cancel, 0, 0));
    assert t.requests - {2} == map[9 := TAB] && Drop(t, 2).locks == map[];
    OneMore(s, [Load(2, Cancel, 0, 0)], WriteCancel(2));
  }

  lemma SecondTab(s: State)
    requires s == State(map[0 := GONE], map[9 := TAB], map[], TWO)
    ensures IsRun(s, SecondTabBooks())
    ensures After(s, SecondTabBooks()).table == map[0 := THERE] && After(s, SecondTabBooks()).log == TWO + [Commit(0, Book, 1)]
  {
    OneStep(s, Lock(9));
    OneMore(s, [Lock(9)], Refresh(9));
    var held := TAB.(phase := Refreshed, copy := ROW.(status := Cancelled));
    assert After(s, [Lock(9)] + [Refresh(9)]) == s.(requests := map[9 := held], locks := map[7 := 9]);
    assert IsUnbooked(s.table, Memory(held, true), held);
    OneMore(s, [Lock(9)] + [Refresh(9)], CheckUnbooked(9, true));
    OneMore(s, [Lock(9)] + [Refresh(9)] + [CheckUnbooked(9, true)], Write(9, true));
  }

  /** A booking that loaded the invitation while it was pending, and commits after the interview was booked, moved and
      cancelled, leaves it booked with the number of the move in place of 0. */
  lemma BookingKeepsTheNumber()
    ensures var events := TabOpens() + (FirstTabBooks() + (MovedAndCancelled() + SecondTabBooks()));
            && IsRun(EMPTY, events)
            && var t := After(EMPTY, events);
               && t.log == TWO + [Commit(0, Book, 1)]
               && 0 in t.table && t.table[0].status == Booked && t.table[0].sequence == 1
  {
    hide TabOpens, FirstTabBooks, MovedAndCancelled, SecondTabBooks;
    ItOpens();
    var s1 := After(EMPTY, TabOpens());
    FirstTab(s1);
    var s2 := After(s1, FirstTabBooks());
    ItIsCancelled(s2);
    SecondTab(After(s2, MovedAndCancelled()));
    RunsJoin(s2, MovedAndCancelled(), SecondTabBooks());
    RunsJoin(s1, FirstTabBooks(), MovedAndCancelled() + SecondTabBooks());
    RunsJoin(EMPTY, TabOpens(), FirstTabBooks() + (MovedAndCancelled() + SecondTabBooks()));
  }
}
