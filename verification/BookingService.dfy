/**
 The request code of services/interviews.py, cut at its database round trips: each method changes the
 shared tables in place and is one event of the booking protocol, so any order of calls is a run of it.
 */
module BookingService {
  import opened Basics
  import opened Slots
  import opened Pipeline
  import opened Booking
  import opened BookingSteps

  datatype Error = AlreadyBooked | NotBooked | SlotUnavailable | WasCancelled | InterviewExists | IndexViolated

  lemma TakenMeansOverlap(table: Table, memory: Table, q: Request, busy: set<Window>, end: Instant)
    requires end == End(q.start, q.copy.minutes)
    requires busy == BookedWindows(table, memory, q.copy.interviewer, q.start - MAX_INTERVIEW_MINUTES * MINUTE, end)
    ensures (exists w | w in busy :: q.start < w.end && end > w.start) <==> !IsUnbooked(table, memory, q)
  {
    hide BookedWindows;
    if w :| w in busy && q.start < w.end && end > w.start {
      assert Overlaps(q.start, end, w);
    }
    if !IsUnbooked(table, memory, q) {
      var w :| w in busy && Overlaps(q.start, end, w);
      assert q.start < w.end && end > w.start;
    }
  }

  class BookingDatabase {
    var table: Table
    var requests: map<RequestId, Request>
    var locks: map<UserId, RequestId>
    var log: seq<Commit>

    ghost function Value(): State
      reads this
    {
      State(table, requests, locks, log)
    }

    constructor ()
      ensures Value() == EMPTY
    {
      table, requests, locks, log := map[], map[], map[], [];
    }

    // A raise, a rollback or the end of the transaction.
    method Leave(r: RequestId)
      requires r in requests
      modifies this
      ensures Value() == Drop(old(Value()), r)
    {
      locks := map u | u in locks && locks[u] != r :: locks[u];
      requests := requests - {r};
    }

    // An application with an interview under way gets no second one.
    method CreateInterview(id: InterviewId, application: AppId, interviewer: UserId, minutes: nat) returns (error: Option<Error>)
      requires Enabled(Value(), Create(id, application, interviewer, minutes))
      modifies this
      ensures Value() == Next(old(Value()), Create(id, application, interviewer, minutes))
      ensures error == if id in table then None else Some(InterviewExists)
      ensures error == None <==>
                forall other | other in old(table) && old(table)[other].application == application ::
                  old(table)[other].status == Cancelled
    {
      if exists other | other in table :: table[other].application == application && table[other].status != Cancelled {
        return Some(InterviewExists);
      }
      table := table[id := Interview(application, interviewer, minutes, Pending, None, 0)];
      error := None;
    }

    method LoadInterview(r: RequestId, kind: Kind, id: InterviewId, start: Instant) returns (error: Option<Error>)
      requires Enabled(Value(), Load(r, kind, id, start))
      modifies this
      ensures Value() == Next(old(Value()), Load(r, kind, id, start))
      ensures error == None <==> r in requests
      ensures error == Some(AlreadyBooked) <==> kind == Book && table[id].status == Booked
      ensures error == Some(WasCancelled) <==> kind == Book && table[id].status == Cancelled
      ensures error == Some(NotBooked) <==> kind == Reschedule && table[id].status != Booked
    {
      error := None;
      if kind == Book && table[id].status == Cancelled {
        error := Some(WasCancelled);
      } else if kind == Book && table[id].status == Booked {
        error := Some(AlreadyBooked);
      } else if kind == Reschedule && table[id].status != Booked {
        error := Some(NotBooked);
      } else {
        requests := requests[r := Request(kind, id, start, Loaded, table[id], |log|)];
      }
    }

    method RequireAvailable(r: RequestId, now: Instant, offset: int, hours: Availability, fromCopy: bool)
      returns (error: Option<Error>)
      requires Enabled(Value(), CheckOffered(r, now, offset, hours, fromCopy))
      modifies this
      ensures Value() == Next(old(Value()), CheckOffered(r, now, offset, hours, fromCopy))
      ensures error == if r in requests then None else Some(SlotUnavailable)
    {
      var q := requests[r];
      var first := LocalDay(now, offset) + 1;
      var busy := BookedWindows(table, Memory(q, fromCopy), q.copy.interviewer,
                                Midnight(first, offset), Midnight(first + HORIZON_DAYS, offset));
      var slots := GenerateSlots(now, offset, hours, q.copy.minutes * MINUTE, busy);
      if q.start in slots {
        requests := requests[r := q.(phase := Offered)];
        error := None;
      } else {
        Leave(r);
        error := Some(SlotUnavailable);
      }
    }

    method LockInterviewer(r: RequestId)
      requires Enabled(Value(), Lock(r))
      modifies this
      ensures Value() == Next(old(Value()), Lock(r))
    {
      var q := requests[r];
      locks := locks[q.copy.interviewer := r];
      requests := requests[r := q.(phase := Locked)];
    }

    method RefreshUnderLock(r: RequestId) returns (error: Option<Error>)
      requires Enabled(Value(), Refresh(r))
      modifies this
      ensures Value() == Next(old(Value()), Refresh(r))
      ensures error == None <==> r in requests
      ensures error.Some? ==>
                error.value == if old(requests[r].kind) == Reschedule then NotBooked else AlreadyBooked
    {
      var q := requests[r];
      var row := table[q.id];
      var copy := q.copy.(status := row.status);
      if q.kind == Reschedule {
        copy := copy.(sequence := row.sequence);
      }
      if q.kind == Reschedule && copy.status != Booked {
        Leave(r);
        return Some(NotBooked);
      }
      if q.kind != Reschedule && copy.status == Booked {
        Leave(r);
        return Some(AlreadyBooked);
      }
      requests := requests[r := q.(phase := Refreshed, copy := copy)];
      error := None;
    }

    method RequireUnbooked(r: RequestId, fromCopy: bool) returns (error: Option<Error>)
      requires Enabled(Value(), CheckUnbooked(r, fromCopy))
      modifies this
      ensures Value() == Next(old(Value()), CheckUnbooked(r, fromCopy))
      ensures error == if r in requests then None else Some(SlotUnavailable)
    {
      var q := requests[r];
      var start, end := q.start, q.start + q.copy.minutes * MINUTE;
      var busy := BookedWindows(table, Memory(q, fromCopy), q.copy.interviewer,
                                start - MAX_INTERVIEW_MINUTES * MINUTE, end);
      var taken := exists w | w in busy :: start < w.end && end > w.start;
      TakenMeansOverlap(table, Memory(q, fromCopy), q, busy, end);
      if taken {
        Leave(r);
        error := Some(SlotUnavailable);
      } else {
        requests := requests[r := q.(phase := Cleared)];
        error := None;
      }
    }

    method WriteBooking(r: RequestId, changedOnly: bool) returns (error: Option<Error>)
      requires Enabled(Value(), Write(r, changedOnly)) && requests[r].kind != Reschedule
      modifies this
      ensures Value() == Next(old(Value()), Write(r, changedOnly))
      ensures error == if IndexAllows(old(table), old(requests[r].id), old(table[requests[r].id]).(status := Booked))
                       then None else Some(IndexViolated)
      ensures Inv(old(Value())) ==> Writes(old(Value()), Value(), r, changedOnly)
    {
      hide Inv, Writes;
      if Inv(Value()) { WriteWrites(Value(), r, changedOnly); }
      var q := requests[r];
      var row := table[q.id].(status := Booked);
      if !(changedOnly && q.copy.start == Some(q.start)) { row := row.(start := Some(q.start)); }
      if !(changedOnly && q.copy.sequence == 0) { row := row.(sequence := 0); }
      error := CommitRow(r, row);
    }

    method WriteReschedule(r: RequestId, changedOnly: bool) returns (error: Option<Error>)
      requires Enabled(Value(), Write(r, changedOnly)) && requests[r].kind == Reschedule
      modifies this
      ensures Value() == Next(old(Value()), Write(r, changedOnly))
      ensures Inv(old(Value())) ==> Writes(old(Value()), Value(), r, changedOnly)
    {
      hide Inv, Writes;
      if Inv(Value()) { WriteWrites(Value(), r, changedOnly); }
      var q := requests[r];
      var row := table[q.id].(sequence := q.copy.sequence + 1);
      if !(changedOnly && q.copy.start == Some(q.start)) { row := row.(start := Some(q.start)); }
      error := CommitRow(r, row);
    }

    // The flush and the commit; a row the unique index refuses rolls everything back.
    method CommitRow(r: RequestId, row: Interview) returns (error: Option<Error>)
      requires r in requests
      modifies this
      ensures error == if IndexAllows(old(table), old(requests[r].id), row) then None else Some(IndexViolated)
      ensures var q := old(requests[r]);
              Value() == if error == None
                         then Drop(old(Value()), r).(table := old(table)[q.id := row],
                                                     log := old(log) + [Commit(q.id, q.kind, row.sequence)])
                         else Drop(old(Value()), r)
    {
      var q := requests[r];
      error := if IndexAllows(table, q.id, row) then None else Some(IndexViolated);
      if error == None {
        table := table[q.id := row];
        log := log + [Commit(q.id, q.kind, row.sequence)];
      }
      Leave(r);
    }

    method CancelInterview(r: RequestId)
      requires Enabled(Value(), WriteCancel(r))
      modifies this
      ensures Value() == Next(old(Value()), WriteCancel(r))
      ensures old(requests[r].copy.status) != Cancelled ==> table[old(requests[r].id)].status == Cancelled
    {
      var q := requests[r];
      if q.copy.status != Cancelled {
        table := table[q.id := table[q.id].(status := Cancelled)];
      }
      Leave(r);
    }
  }
}
