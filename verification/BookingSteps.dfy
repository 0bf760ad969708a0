/**
 What each step of the booking protocol does to the tables, one field at a time, and the two writes that do not do
 what was asked: a flush leaves out a column that the request did not change against its own copy.
 */
module BookingSteps {
  import opened Basics
  import opened Pipeline
  import opened Slots
  import opened Booking

  // ---------------------------------------------------------------- the write

  // The application has another interview under way, and this one would be a second.
  predicate IndexRefuses(s: State, q: Request)
    requires q.id in s.table
  {
    (q.kind == Book || s.table[q.id].status != Cancelled)
    && exists other | other in s.table :: other != q.id && s.table[other].application == s.table[q.id].application
                                          && s.table[other].status != Cancelled
  }

  // The request and its lock are gone; every other request keeps what it had.
  ghost predicate Leaves(s: State, t: State, r: RequestId) {
    && t.requests.Keys == s.requests.Keys - {r}
    && (forall p | p in s.requests && p != r :: t.requests[p] == s.requests[p])
    && (forall u :: u in t.locks <==> u in s.locks && s.locks[u] != r)
    && (forall u | u in t.locks :: t.locks[u] == s.locks[u])
  }

  // Every other interview is as before, and this one is still the same interview.
  predicate ChangesOne(s: State, t: State, id: InterviewId) {
    && id in s.table && t.table.Keys == s.table.Keys
    && (forall other | other in s.table && other != id :: t.table[other] == s.table[other])
    && t.table[id].application == s.table[id].application
    && t.table[id].interviewer == s.table[id].interviewer && t.table[id].minutes == s.table[id].minutes
  }

  // The row shows the start asked for, but the copy of the request did so already while the row had moved.
  predicate StartIsSkipped(q: Request, row: Interview, changedOnly: bool) {
    changedOnly && q.kind == Reschedule && q.copy.start == Some(q.start) && row.start != Some(q.start)
  }

  ghost predicate Writes(s: State, t: State, r: RequestId, changedOnly: bool) {
    && r in s.requests && Leaves(s, t, r)
    && var q := s.requests[r];
       && q.id in s.table
       && if IndexRefuses(s, q) then t.table == s.table && t.log == s.log
          else
            var row, after := s.table[q.id], if q.id in t.table then t.table[q.id] else s.table[q.id];
            && ChangesOne(s, t, q.id)
            && t.log == s.log + [Commit(q.id, q.kind, after.sequence)]
            && (after.start == Some(q.start) <==> !StartIsSkipped(q, row, changedOnly))
            && (StartIsSkipped(q, row, changedOnly) ==> after.start == row.start)
            && (q.kind == Book ==>
                  && after.status == Booked && after.start == Some(q.start)
                  && after.sequence == if changedOnly then row.sequence else 0)
            && (q.kind == Reschedule ==> after.status == row.status && after.sequence == row.sequence + 1)
  }

  /** In every run, a write that the index lets through leaves the interview at the start asked for: always for a booking,
      which ends booked, and for a reschedule exactly unless its own copy showed that start already while the row had
      moved. The reschedule's SEQUENCE is one higher; the booking's is 0 exactly if the row's still was, or the flush
      writes every column. Every other interview, request and lock is as before. */
  lemma WriteMoves(events: seq<Event>, r: RequestId, changedOnly: bool)
    requires IsRun(EMPTY, events) && Enabled(After(EMPTY, events), Write(r, changedOnly))
    ensures Writes(After(EMPTY, events), Next(After(EMPTY, events), Write(r, changedOnly)), r, changedOnly)
  {
    RunKeepsInv(EMPTY, events);
    WriteWrites(After(EMPTY, events), r, changedOnly);
  }

  lemma WriteWrites(s: State, r: RequestId, changedOnly: bool)
    requires Inv(s) && Enabled(s, Write(r, changedOnly))
    ensures Writes(s, Next(s, Write(r, changedOnly)), r, changedOnly)
  {
    var q := s.requests[r];
    assert RequestOk(s, r, q) && RowOk(s.table[q.id]);
    hide Inv;
    WriteFields(s, r, changedOnly);
  }

  lemma WriteFields(s: State, r: RequestId, changedOnly: bool)
    requires Enabled(s, Write(r, changedOnly))
    requires var q := s.requests[r];
             && q.kind != Cancel && (q.kind == Book ==> q.copy.start == None && q.copy.sequence == 0)
             && (q.kind == Reschedule ==> q.copy.sequence == s.table[q.id].sequence)
    ensures Writes(s, Next(s, Write(r, changedOnly)), r, changedOnly)
  {
    var q := s.requests[r];
    IndexMeans(s, q, Written(q, s.table[q.id], changedOnly));
    hide IndexRefuses, IndexAllows;
  }

  lemma IndexMeans(s: State, q: Request, row: Interview)
    requires q.id in s.table && row.application == s.table[q.id].application
    requires row.status == (if q.kind == Reschedule then s.table[q.id].status else Booked)
    requires q.kind != Cancel
    ensures IndexRefuses(s, q) <==> !IndexAllows(s.table, q.id, row)
  {
  }

  // ---------------------------------------------------------------- the other steps

  /** A cancel leaves the interview cancelled, whatever it was, and nothing else changed; one that loaded it cancelled
      changes nothing. */
  lemma CancelCancels(s: State, r: RequestId)
    requires Enabled(s, WriteCancel(r))
    ensures var q, t := s.requests[r], Next(s, WriteCancel(r));
            && Leaves(s, t, r) && t.log == s.log
            && if q.copy.status == Cancelled then t.table == s.table
               else ChangesOne(s, t, q.id) && t.table[q.id].status == Cancelled
                    && t.table[q.id].start == s.table[q.id].start && t.table[q.id].sequence == s.table[q.id].sequence
  {
  }

  /** Under the lock a booking goes on unless the interview is booked by now, and a reschedule only if it still is; the
      copy takes over the status, and the reschedule's the SEQUENCE as well. */
  lemma RefreshReads(s: State, r: RequestId)
    requires Enabled(s, Refresh(r))
    ensures var q, row, t := s.requests[r], s.table[s.requests[r].id], Next(s, Refresh(r));
            && t.table == s.table && t.log == s.log
            && if (q.kind == Reschedule && row.status == Booked) || (q.kind != Reschedule && row.status != Booked)
               then && t.locks == s.locks && t.requests.Keys == s.requests.Keys
                    && (forall p | p in s.requests && p != r :: t.requests[p] == s.requests[p])
                    && t.requests[r].phase == Refreshed && t.requests[r].start == q.start
                    && t.requests[r].copy.status == row.status && t.requests[r].copy.start == q.copy.start
                    && t.requests[r].copy.sequence == (if q.kind == Reschedule then row.sequence else q.copy.sequence)
               else Leaves(s, t, r)
  {
  }

  // A booking of this interviewer overlaps the window of a request.
  predicate InTheWay(row: Interview, q: Request) {
    && row.interviewer == q.copy.interviewer && row.status == Booked && row.start.Some?
    && q.start < row.start.value + row.minutes * 60_000_000 && row.start.value < q.start + q.copy.minutes * 60_000_000
  }

  /** The check of the offer lets exactly the starts through that are slots of the empty calendar and overlap no booking
      of the fourteen days from the next midnight on. */
  lemma OfferChecks(s: State, r: RequestId, now: Instant, offset: int, hours: Availability)
    requires Enabled(s, CheckOffered(r, now, offset, hours, false))
    ensures var q, t := s.requests[r], Next(s, CheckOffered(r, now, offset, hours, false));
            var lo := Midnight(LocalDay(now, offset) + 1, offset);
            && t.table == s.table && t.log == s.log
            && if IsSlot(q.start, now, offset, hours, q.copy.minutes * 60_000_000, {})
                  && forall id | id in s.table && InTheWay(s.table[id], q) ::
                       !(lo <= s.table[id].start.value < lo + 14 * 86_400_000_000)
               then t.locks == s.locks && t.requests == s.requests[r := q.(phase := Offered)]
               else Leaves(s, t, r)
  {
    OfferMeans(s.table, s.requests[r], now, offset, hours);
    hide IsSlot, IsOffered, InTheWay;
  }

  lemma OfferMeans(table: Table, q: Request, now: Instant, offset: int, hours: Availability)
    ensures var lo := Midnight(LocalDay(now, offset) + 1, offset);
            IsOffered(table, Memory(q, false), q, now, offset, hours)
            <==> && IsSlot(q.start, now, offset, hours, q.copy.minutes * 60_000_000, {})
                 && forall id | id in table && InTheWay(table[id], q) ::
                      !(lo <= table[id].start.value < lo + 14 * 86_400_000_000)
  {
    var lo := Midnight(LocalDay(now, offset) + 1, offset);
    var busy := BookedWindows(table, Memory(q, false), q.copy.interviewer, lo, lo + 14 * DAY);
    assert Midnight(LocalDay(now, offset) + 1 + HORIZON_DAYS, offset) == lo + 14 * DAY;
    forall id | id in table && Occupies(table[id], q.copy.interviewer) && lo <= table[id].start.value < lo + 14 * DAY
      ensures WindowOf(table[id]) in busy
    {
      assert Seen(table, Memory(q, false), id) == table[id];
    }
  }

  /** The check under the lock lets a start through exactly if it overlaps no booking of the interviewer at all, no
      interview being longer than an hour. */
  lemma RecheckChecks(s: State, r: RequestId)
    requires Inv(s) && Enabled(s, CheckUnbooked(r, false))
    ensures var q, t := s.requests[r], Next(s, CheckUnbooked(r, false));
            && t.table == s.table && t.log == s.log
            && if forall id | id in s.table :: !InTheWay(s.table[id], q)
               then t.locks == s.locks && t.requests == s.requests[r := q.(phase := Cleared)]
               else Leaves(s, t, r)
  {
    hide RequestOk, LockOk, NoDoubleBooking, RowOk;
    RecheckStep(s, r);
  }

  lemma RecheckStep(s: State, r: RequestId)
    requires Enabled(s, CheckUnbooked(r, false)) && forall id | id in s.table :: RowOk(s.table[id])
    ensures var q, t := s.requests[r], Next(s, CheckUnbooked(r, false));
            && t.table == s.table && t.log == s.log
            && if forall id | id in s.table :: !InTheWay(s.table[id], q)
               then t.locks == s.locks && t.requests == s.requests[r := q.(phase := Cleared)]
               else Leaves(s, t, r)
  {
    RecheckMeans(s.table, s.requests[r]);
    hide IsUnbooked, InTheWay;
  }

  lemma RecheckMeans(table: Table, q: Request)
    requires forall id | id in table :: RowOk(table[id])
    ensures IsUnbooked(table, Memory(q, false), q) <==> forall id | id in table :: !InTheWay(table[id], q)
  {
    var end := End(q.start, q.copy.minutes);
    var busy := BookedWindows(table, Memory(q, false), q.copy.interviewer, q.start - MAX_INTERVIEW_MINUTES * MINUTE, end);
    forall id | id in table && InTheWay(table[id], q) ensures WindowOf(table[id]) in busy {
      LookbackFindsOverlap(table, Memory(q, false), q.copy.interviewer, q.start, end, id);
    }
    forall id | id in table && Occupies(table[id], q.copy.interviewer)
      ensures Seen(table, Memory(q, false), id) == table[id]
      ensures Overlaps(q.start, end, WindowOf(table[id])) ==> InTheWay(table[id], q)
    {
    }
  }

  /** The rest: a new interview is pending with no start and SEQUENCE 0, unless the application has one under way; a
      request holds a copy of the row, and starts only from the status its route asks for; a lock goes to who takes it. */
  lemma OtherSteps(s: State, id: InterviewId, application: AppId, user: UserId, minutes: nat,
                   r: RequestId, kind: Kind, start: Instant)
    ensures Enabled(s, Create(id, application, user, minutes)) ==>
              Next(s, Create(id, application, user, minutes))
              == if exists other | other in s.table :: s.table[other].application == application && s.table[other].status != Cancelled
                 then s else s.(table := s.table[id := Interview(application, user, minutes, Pending, None, 0)])
    ensures Enabled(s, Load(r, kind, id, start)) ==>
              Next(s, Load(r, kind, id, start))
              == if (kind == Book && s.table[id].status != Pending) || (kind == Reschedule && s.table[id].status != Booked) then s
                 else s.(requests := s.requests[r := Request(kind, id, start, Loaded, s.table[id], |s.log|)])
    ensures Enabled(s, Lock(r)) ==>
              var q := s.requests[r];
              q.copy.interviewer !in s.locks
              && Next(s, Lock(r)) == s.(requests := s.requests[r := q.(phase := Locked)], locks := s.locks[q.copy.interviewer := r])
    ensures Enabled(s, GiveUp(r)) ==>
              var t := Next(s, GiveUp(r)); Leaves(s, t, r) && t.table == s.table && t.log == s.log
  {
  }
}
