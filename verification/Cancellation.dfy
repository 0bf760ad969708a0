/** Whether a cancelled interview stays cancelled: cancels take no lock, and book re-checks only for BOOKED. */
module Cancellation {
  import opened Basics
  import opened Slots
  import opened Booking

  predicate NoBookInFlight(s: State, id: InterviewId) {
    forall r | r in s.requests :: s.requests[r].id == id ==> s.requests[r].kind != Book
  }

  lemma StepKeepsCancelled(s: State, e: Event, id: InterviewId)
    requires Inv(s) && Enabled(s, e) && id in s.table && s.table[id].status == Cancelled && NoBookInFlight(s, id)
    ensures var t := Next(s, e); id in t.table && t.table[id].status == Cancelled && NoBookInFlight(t, id)
  {
    var t := Next(s, e);
    if e.Write? { assert RequestOk(s, e.r, s.requests[e.r]); }
    hide Inv, IsOffered, IsUnbooked, IndexAllows;
    forall r | r in t.requests ensures t.requests[r].id == id ==> t.requests[r].kind != Book {
      if r in s.requests { assert s.requests[r].id == id ==> s.requests[r].kind != Book; }
    }
  }

  /** In every run, a cancelled interview that no booking request still has in hand stays cancelled. */
  lemma {:induction false} CancelledStaysCancelled(s: State, events: seq<Event>, id: InterviewId)
    requires Inv(s) && IsRun(s, events) && id in s.table && s.table[id].status == Cancelled && NoBookInFlight(s, id)
    ensures var t := After(s, events); id in t.table && t.table[id].status == Cancelled
    decreases |events|
  {
    if events != [] {
      StepKeepsInv(s, events[0]);
      StepKeepsCancelled(s, events[0], id);
      CancelledStaysCancelled(Next(s, events[0]), events[1..], id);
    }
  }

  // ---------------------------------------------------------------- the condition is exact

  /** Which step brings a cancelled interview back: the write of a booking of it, while no other interview of the
      application is under way, and no other step. */
  lemma OnlyABookingRevives(s: State, e: Event, id: InterviewId)
    requires Inv(s) && Enabled(s, e) && id in s.table && s.table[id].status == Cancelled
    ensures id in Next(s, e).table
    ensures Next(s, e).table[id].status != Cancelled <==>
            e.Write? && s.requests[e.r].id == id && s.requests[e.r].kind == Book
            && IndexAllows(s.table, id, s.table[id].(status := Booked))
  {
    if e.Write? { assert RequestOk(s, e.r, s.requests[e.r]); }
  }

  // A zone's offset: whole and half hours, and the three that end on a quarter.
  predicate IsZone(offset: int) {
    (-12 * HOUR <= offset <= 14 * HOUR && offset % (30 * MINUTE) == 0)
    || offset == 5 * HOUR + 45 * MINUTE || offset == 8 * HOUR + 45 * MINUTE || offset == 12 * HOUR + 45 * MINUTE
  }

  // A weekly availability as the schema lets it be saved, on the half-hour grid.
  predicate IsSchedule(hours: Availability) {
    forall day | day in hours :: hours[day].open % (30 * MINUTE) == 0 && hours[day].close % (30 * MINUTE) == 0
  }

  // From now on offers are computed with the clock and with a saved zone and schedule, of whatever the interviewer
  // saves in the course of the run.
  predicate Stored(e: Event, now: Instant) {
    e.CheckOffered? ==> now <= e.now && IsZone(e.offset) && IsSchedule(e.hours)
  }

  predicate AllStored(events: seq<Event>, now: Instant) { forall k | 0 <= k < |events| :: Stored(events[k], now) }

  predicate NoOffers(events: seq<Event>) { forall k | 0 <= k < |events| :: !events[k].CheckOffered? }

  // In this zone the start falls on the half-hour grid, ends by the last time a schedule can close, and is on a day
  // that has not begun.
  predicate Suits(q: Request, now: Instant, offset: int) {
    var time := TimeOfDay(q.start, offset);
    && IsZone(offset) && time % (30 * MINUTE) == 0
    && time + q.copy.minutes * MINUTE <= 23 * HOUR + 30 * MINUTE
    && time < q.start - now
  }

  // The start can still be offered: an hour ahead, and in a zone it suits.
  ghost predicate CanBeOffered(q: Request, now: Instant) {
    now + LEAD <= q.start && exists offset :: Suits(q, now, offset)
  }

  // A booking request that got past the offer, or can still get its start offered.
  ghost predicate CanRevive(q: Request, id: InterviewId, now: Instant) {
    q.id == id && q.kind == Book && (q.phase.Loaded? ==> CanBeOffered(q, now))
  }

  ghost predicate NobodyRevives(s: State, id: InterviewId, now: Instant) {
    forall r | r in s.requests :: !CanRevive(s.requests[r], id, now)
  }

  lemma OfferedMeansCanBe(table: Table, memory: Table, q: Request, since: Instant, now: Instant, offset: int, hours: Availability)
    requires since <= now && IsZone(offset) && IsSchedule(hours) && IsOffered(table, memory, q, now, offset, hours)
    ensures CanBeOffered(q, since)
  {
    var window := hours[DayOfWeek(LocalDay(q.start, offset))];
    HalfHours(TimeOfDay(q.start, offset), window.open, window.close);
    EarlierDay(now, q.start, offset);
    assert Suits(q, since, offset);
  }

  lemma HalfHours(time: int, open: int, close: int)
    requires (time - open) % (30 * MINUTE) == 0 && open % (30 * MINUTE) == 0 && close % (30 * MINUTE) == 0 && close < DAY
    ensures time % (30 * MINUTE) == 0 && close <= 23 * HOUR + 30 * MINUTE
  {
    var a, b, c := (time - open) / (30 * MINUTE), open / (30 * MINUTE), close / (30 * MINUTE);
    assert time == (a + b) * (30 * MINUTE) && close == c * (30 * MINUTE) && c < 48;
  }

  lemma EarlierDay(now: Instant, t: Instant, offset: int)
    ensures LocalDay(now, offset) < LocalDay(t, offset) <==> TimeOfDay(t, offset) < t - now
  {
    FromCoordinates(t, offset);
    FromCoordinates(now, offset);
  }

  lemma StoredStepKeepsCancelled(s: State, e: Event, id: InterviewId, now: Instant)
    requires Inv(s) && Enabled(s, e) && Stored(e, now)
    requires id in s.table && s.table[id].status == Cancelled && NobodyRevives(s, id, now)
    ensures var t := Next(s, e); id in t.table && t.table[id].status == Cancelled && NobodyRevives(t, id, now)
  {
    OnlyABookingRevives(s, e, id);
    if e.CheckOffered? {
      var q := s.requests[e.r];
      assert !CanRevive(q, id, now);
      if IsOffered(s.table, Memory(q, e.fromCopy), q, e.now, e.offset, e.hours) {
        OfferedMeansCanBe(s.table, Memory(q, e.fromCopy), q, now, e.now, e.offset, e.hours);
      }
    }
    hide Inv, IsOffered, IsUnbooked, IndexAllows, IsZone, IsSchedule, CanBeOffered;
    forall r | r in Next(s, e).requests ensures !CanRevive(Next(s, e).requests[r], id, now) {
      if r in s.requests { assert !CanRevive(s.requests[r], id, now); }
    }
  }

  lemma {:induction false} StoredRunKeepsCancelled(s: State, events: seq<Event>, id: InterviewId, now: Instant)
    requires Inv(s) && IsRun(s, events) && AllStored(events, now)
    requires id in s.table && s.table[id].status == Cancelled && NobodyRevives(s, id, now)
    ensures var t := After(s, events); id in t.table && t.table[id].status == Cancelled
    decreases |events|
  {
    if events != [] {
      StepKeepsInv(s, events[0]);
      StoredStepKeepsCancelled(s, events[0], id, now);
      StoredRunKeepsCancelled(Next(s, events[0]), events[1..], id, now);
    }
  }

  // Every other session can go away.
  lemma {:induction false} OthersGiveUp(s: State, r: RequestId) returns (events: seq<Event>)
    requires r in s.requests
    ensures IsRun(s, events) && NoOffers(events)
    ensures var t := After(s, events); t.table == s.table && t.requests == map[r := s.requests[r]]
    decreases |s.requests|
  {
    if other :| other in s.requests && other != r {
      var t := Next(s, GiveUp(other));
      assert t.requests == s.requests - {other} && |t.requests.Keys| < |s.requests.Keys|;
      var rest := OthersGiveUp(t, r);
      OneStep(s, GiveUp(other));
      RunsJoin(s, [GiveUp(other)], rest);
      events := [GiveUp(other)] + rest;
    } else {
      events := [];
      assert s.requests == map[r := s.requests[r]];
    }
  }

  function ActiveIn(table: Table): set<InterviewId> { set id | id in table && table[id].status != Cancelled }

  // A cancel request that comes and goes.
  lemma CancelOne(s: State, r: RequestId, id: InterviewId) returns (events: seq<Event>)
    requires r !in s.requests && id in s.table && s.table[id].status != Cancelled
    requires forall u | u in s.locks :: s.locks[u] in s.requests
    ensures IsRun(s, events) && NoOffers(events)
    ensures After(s, events) == s.(table := s.table[id := s.table[id].(status := Cancelled)])
  {
    var load, write := Load(r, Cancel, id, 0), WriteCancel(r);
    var s1 := Next(s, load);
    assert s1.requests - {r} == s.requests;
    assert (map u | u in s1.locks && s1.locks[u] != r :: s1.locks[u]) == s.locks;
    OneStep(s, load);
    OneStep(s1, write);
    RunsJoin(s, [load], [write]);
    events := [load] + [write];
  }

  // And every interview under way can be cancelled.
  lemma {:induction false} AllCancelled(s: State, r: RequestId) returns (events: seq<Event>)
    requires r !in s.requests && forall u | u in s.locks :: s.locks[u] in s.requests
    ensures IsRun(s, events) && NoOffers(events)
    ensures var t := After(s, events);
            && t == s.(table := t.table) && ActiveIn(t.table) == {} && t.table.Keys == s.table.Keys
            && forall id | id in s.table && s.table[id].status == Cancelled :: t.table[id] == s.table[id]
    decreases |ActiveIn(s.table)|
  {
    if id :| id in ActiveIn(s.table) {
      var one := CancelOne(s, r, id);
      var t := After(s, one);
      assert ActiveIn(t.table) == ActiveIn(s.table) - {id};
      var rest := AllCancelled(t, r);
      RunsJoin(s, one, rest);
      events := one + rest;
    } else {
      events := [];
    }
  }

  // A schedule that offers the start, in a calendar with nothing booked.
  lemma SomeCalendarOffers(table: Table, q: Request, since: Instant) returns (now: Instant, offset: int, hours: Availability)
    requires ActiveIn(table) == {} && 0 < q.copy.minutes && CanBeOffered(q, since)
    ensures since <= now && IsZone(offset) && IsSchedule(hours) && IsOffered(table, Memory(q, false), q, now, offset, hours)
  {
    offset :| Suits(q, since, offset);
    now := if since < q.start - DAY then q.start - DAY else since;
    var day, time := LocalDay(q.start, offset), TimeOfDay(q.start, offset);
    var window: Hours := Hours(time, 23 * HOUR + 30 * MINUTE);
    hours := map[DayOfWeek(day) := window];
    EarlierDay(now, q.start, offset);
    DayBefore(q.start, offset, now);
    NothingBooked(table, q, offset, LocalDay(now, offset) + 1);
  }

  lemma DayBefore(t: Instant, offset: int, now: Instant)
    requires t - DAY <= now
    ensures LocalDay(t, offset) - 1 <= LocalDay(now, offset)
  {
    assert t + offset == (t - DAY + offset) + DAY;
  }

  lemma NothingBooked(table: Table, q: Request, offset: int, first: int)
    requires ActiveIn(table) == {}
    ensures BookedWindows(table, Memory(q, false), q.copy.interviewer,
                          Midnight(first, offset), Midnight(first + HORIZON_DAYS, offset)) == {}
  {
    forall id | id in table ensures table[id].status == Cancelled { assert id !in ActiveIn(table); }
  }

  // The one session left: alone, with nothing under way, and its lock free or its own.
  ghost predicate Alone(s: State, r: RequestId, id: InterviewId, now: Instant) {
    && Inv(s) && s.requests.Keys == {r} && CanRevive(s.requests[r], id, now)
    && id in s.table && s.table[id].status == Cancelled && ActiveIn(s.table) == {}
  }

  // What a booking session does next.
  lemma NextMove(s: State, r: RequestId, id: InterviewId, now: Instant) returns (e: Event)
    requires Alone(s, r, id, now) && !s.requests[r].phase.Cleared?
    ensures Enabled(s, e) && Stored(e, now) && Alone(Next(s, e), r, id, now)
    ensures Steps(Next(s, e).requests[r].phase) < Steps(s.requests[r].phase)
  {
    var q := s.requests[r];
    assert RequestOk(s, r, q) && RowOk(s.table[id]);
    assert forall u | u in s.locks :: LockOk(s, u);
    forall b | b in s.table ensures s.table[b].status == Cancelled { assert b !in ActiveIn(s.table); }
    e := Lock(r);
    match q.phase {
      case Loaded =>
        var clock, offset, hours := SomeCalendarOffers(s.table, q, now);
        e := CheckOffered(r, clock, offset, hours, false);
      case Offered =>
      case Locked => e := Refresh(r);
      case Refreshed =>
        assert IsUnbooked(s.table, Memory(q, false), q);
        e := CheckUnbooked(r, false);
    }
    StepKeepsInv(s, e);
    hide Inv, IsOffered, IsUnbooked, IsZone, IsSchedule, RequestOk, LockOk, RowOk, CanBeOffered;
  }

  function Steps(p: Phase): nat {
    match p case Loaded => 4 case Offered => 3 case Locked => 2 case Refreshed => 1 case Cleared => 0
  }

  lemma {:induction false} BookingFinishes(s: State, r: RequestId, id: InterviewId, now: Instant) returns (events: seq<Event>)
    requires Alone(s, r, id, now)
    ensures IsRun(s, events) && AllStored(events, now)
    ensures id in After(s, events).table && After(s, events).table[id].status == Booked
    decreases Steps(s.requests[r].phase)
  {
    if s.requests[r].phase.Cleared? {
      forall b | b in s.table ensures s.table[b].status == Cancelled { assert b !in ActiveIn(s.table); }
      events := [Write(r, false)];
      OneStep(s, Write(r, false));
    } else {
      var e := NextMove(s, r, id, now);
      var rest := BookingFinishes(Next(s, e), r, id, now);
      OneStep(s, e);
      RunsJoin(s, [e], rest);
      events := [e] + rest;
    }
  }

  // Whoever else is about can step aside.
  lemma BookingIsLeftAlone(s: State, r: RequestId, id: InterviewId, now: Instant) returns (events: seq<Event>)
    requires Inv(s) && id in s.table && s.table[id].status == Cancelled
    requires r in s.requests && CanRevive(s.requests[r], id, now)
    ensures IsRun(s, events) && AllStored(events, now) && Alone(After(s, events), r, id, now)
  {
    var first := OthersGiveUp(s, r);
    RunKeepsInv(s, first);
    var t := After(s, first);
    forall u | u in t.locks ensures t.locks[u] in t.requests { assert LockOk(t, u); }
    var second := AllCancelled(t, r + 1);
    RunKeepsInv(t, second);
    RunsJoin(s, first, second);
    events := first + second;
  }

  /** From any moment on, a cancelled interview stays cancelled in every continuation if and only if no booking request
      has it in hand that got past its offer, or asks for a start that a schedule, in some zone, can still offer. */
  lemma CancelledStaysExactly(s: State, id: InterviewId, now: Instant)
    requires Inv(s) && id in s.table && s.table[id].status == Cancelled
    ensures (forall events | IsRun(s, events) && AllStored(events, now) ::
               id in After(s, events).table && After(s, events).table[id].status == Cancelled)
            <==> NobodyRevives(s, id, now)
  {
    if NobodyRevives(s, id, now) {
      forall events | IsRun(s, events) && AllStored(events, now)
        ensures id in After(s, events).table && After(s, events).table[id].status == Cancelled
      {
        StoredRunKeepsCancelled(s, events, id, now);
      }
    } else {
      var r :| r in s.requests && CanRevive(s.requests[r], id, now);
      var aside := BookingIsLeftAlone(s, r, id, now);
      var rest := BookingFinishes(After(s, aside), r, id, now);
      RunsJoin(s, aside, rest);
      assert AllStored(aside + rest, now);
      assert After(s, aside + rest).table[id].status == Booked;
    }
  }

  // ---------------------------------------------------------------- one such run

  const OPEN_FRIDAY: Availability := map[4 := Hours(0, 2 * HOUR)]
  const FRIDAY := DAY

  const ROW := Interview(3, 7, 30, Pending, None, 0)
  const GONE := ROW.(status := Cancelled)
  const ASKING := Request(Book, 0, FRIDAY, Loaded, ROW, 0)
  const OFFERED := ASKING.(phase := Offered)
  const HELD := ASKING.(phase := Refreshed, copy := GONE)

  // Candidate 1 checks the slot, candidate 2's tab cancels ...
  function Cancelling(): seq<Event> {
    [Create(0, 3, 7, 30)] + [Load(1, Book, 0, FRIDAY)] + [CheckOffered(1, 0, 0, OPEN_FRIDAY, false)]
    + [Load(2, Cancel, 0, 0)] + [WriteCancel(2)]
  }

  // ... and candidate 1 goes on.
  function Reviving(): seq<Event> {
    [Lock(1)] + [Refresh(1)] + [CheckUnbooked(1, false)] + [Write(1, true)]
  }

  lemma FirstIsOffered(s: State)
    requires s == State(map[0 := ROW], map[1 := ASKING], map[], [])
    ensures IsOffered(s.table, Memory(ASKING, false), ASKING, 0, 0, OPEN_FRIDAY)
  {
    assert BookedWindows(s.table, Memory(ASKING, false), 7, Midnight(1, 0), Midnight(1 + HORIZON_DAYS, 0)) == {};
  }

  lemma RaceToCancelled()
    ensures IsRun(EMPTY, Cancelling())
    ensures After(EMPTY, Cancelling()) == State(map[0 := GONE], map[1 := OFFERED], map[], [])
  {
    var e1, e2, e3 := Create(0, 3, 7, 30), Load(1, Book, 0, FRIDAY), CheckOffered(1, 0, 0, OPEN_FRIDAY, false);
    OneStep(EMPTY, e1);
    OneMore(EMPTY, [e1], e2);
    var s2 := State(map[0 := ROW], map[1 := ASKING], map[], []);
    assert After(EMPTY, [e1] + [e2]) == s2;
    FirstIsOffered(s2);
    OneMore(EMPTY, [e1] + [e2], e3);
    var s3 := State(map[0 := ROW], map[1 := OFFERED], map[], []);
    assert After(EMPTY, [e1] + [e2] + [e3]) == s3;
    OneMore(EMPTY, [e1] + [e2] + [e3], Load(2, Cancel, 0, 0));
    var s4 := Next(s3, Load(2, Cancel, 0, 0));
    assert s4.requests - {2} == s3.requests;
    OneMore(EMPTY, [e1] + [e2] + [e3] + [Load(2, Cancel, 0, 0)], WriteCancel(2));
  }

  lemma RaceGoesOn(s: State)
    requires s == State(map[0 := GONE], map[1 := OFFERED], map[], [])
    ensures IsRun(s, Reviving()) && 0 in After(s, Reviving()).table && After(s, Reviving()).table[0].status == Booked
  {
    OneStep(s, Lock(1));
    OneMore(s, [Lock(1)], Refresh(1));
    var held := State(map[0 := GONE], map[1 := HELD], map[7 := 1], []);
    assert After(s, [Lock(1)] + [Refresh(1)]) == held;
    assert IsUnbooked(held.table, Memory(HELD, false), HELD);
    OneMore(s, [Lock(1)] + [Refresh(1)], CheckUnbooked(1, false));
    OneMore(s, [Lock(1)] + [Refresh(1)] + [CheckUnbooked(1, false)], Write(1, true));
  }

  /** For example: a booking request that loaded the interview first brings it back. */
  lemma CancelledCanComeBack()
    ensures IsRun(EMPTY, Cancelling()) && 0 in After(EMPTY, Cancelling()).table
            && After(EMPTY, Cancelling()).table[0].status == Cancelled
    ensures IsRun(EMPTY, Cancelling() + Reviving()) && 0 in After(EMPTY, Cancelling() + Reviving()).table
            && After(EMPTY, Cancelling() + Reviving()).table[0].status == Booked
  {
    hide Cancelling, Reviving;
    RaceToCancelled();
    RaceGoesOn(After(EMPTY, Cancelling()));
    RunsJoin(EMPTY, Cancelling(), Reviving());
  }
}
