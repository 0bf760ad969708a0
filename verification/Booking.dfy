/**
 The booking protocol of services/interviews.py, one step per database round trip.

 Any number of requests run at once over one interview table. A request loads
 its interview, checks the chosen start against the live slots, takes the
 interviewer's advisory lock, refreshes, checks for conflicts again and commits;
 cancels take no lock. An event names the request that moves and nothing else
 is known about the order, so a run is any interleaving.

 A session keeps the objects it has loaded: a later query serves the caller's own
 interview from that copy, and a flush skips a column whose value did not change.
 Both habits are switches on the events that meet them, so every result below
 holds with and without them.
 */
module Booking {
  import opened Basics
  import opened Pipeline
  import opened Slots

  const MAX_INTERVIEW_MINUTES := 60

  type InterviewId = nat
  type UserId = nat
  type RequestId = nat

  datatype Status = Pending | Booked | Cancelled

  datatype Interview = Interview(application: AppId, interviewer: UserId, minutes: nat, status: Status,
                                 start: Option<Instant>, sequence: int)

  type Table = map<InterviewId, Interview>

  datatype Kind = Book | Reschedule | Cancel

  datatype Phase = Loaded | Offered | Locked | Refreshed | Cleared

  // A request in flight: the time it asks for, how far it got, its copy of the row,
  // and how many commits had happened when it loaded that copy.
  datatype Request = Request(kind: Kind, id: InterviewId, start: Instant, phase: Phase,
                             copy: Interview, loadedAt: nat)

  // One committed booking or reschedule and the SEQUENCE it left on the row.
  datatype Commit = Commit(id: InterviewId, kind: Kind, sequence: int)

  datatype State = State(table: Table, requests: map<RequestId, Request>,
                         locks: map<UserId, RequestId>, log: seq<Commit>)

  const EMPTY := State(map[], map[], map[], [])

  datatype Event =
    | Create(id: InterviewId, application: AppId, interviewer: UserId, minutes: nat)
    | Load(r: RequestId, kind: Kind, id: InterviewId, start: Instant)
    | CheckOffered(r: RequestId, now: Instant, offset: int, hours: Availability, fromCopy: bool)
    | Lock(r: RequestId)
    | Refresh(r: RequestId)
    | CheckUnbooked(r: RequestId, fromCopy: bool)
    | Write(r: RequestId, changedOnly: bool)
    | WriteCancel(r: RequestId)
    | GiveUp(r: RequestId)

  // ---------------------------------------------------------------- the queries

  function End(start: Instant, minutes: nat): Instant { start + minutes * MINUTE }

  predicate Occupies(i: Interview, user: UserId) {
    i.interviewer == user && i.status == Booked && i.start.Some?
  }

  function WindowOf(i: Interview): Window
    requires i.start.Some?
  {
    Window(i.start.value, End(i.start.value, i.minutes))
  }

  function Seen(table: Table, memory: Table, id: InterviewId): Interview
    requires id in table
  {
    if id in memory then memory[id] else table[id]
  }

  /** The busy windows of one interviewer whose start lies in a range: rows are picked by the stored
      start and read through the session's memory. */
  function BookedWindows(table: Table, memory: Table, user: UserId, lo: Instant, hi: Instant): set<Window> {
    set id | id in table && Occupies(table[id], user) && lo <= table[id].start.value < hi
             && Seen(table, memory, id).start.Some?
      :: WindowOf(Seen(table, memory, id))
  }

  function Memory(q: Request, fromCopy: bool): Table {
    if fromCopy then map[q.id := q.copy] else map[]
  }

  // require_available: the start is one of the live slots.
  predicate IsOffered(table: Table, memory: Table, q: Request, now: Instant, offset: int, hours: Availability) {
    var first := LocalDay(now, offset) + 1;
    IsSlot(q.start, now, offset, hours, q.copy.minutes * MINUTE,
           BookedWindows(table, memory, q.copy.interviewer,
                         Midnight(first, offset), Midnight(first + HORIZON_DAYS, offset)))
  }

  // require_unbooked: nothing found by the bounded look-back overlaps the chosen window.
  predicate IsUnbooked(table: Table, memory: Table, q: Request) {
    var end := End(q.start, q.copy.minutes);
    forall w | w in BookedWindows(table, memory, q.copy.interviewer,
                                  q.start - MAX_INTERVIEW_MINUTES * MINUTE, end)
      :: !Overlaps(q.start, end, w)
  }

  // ---------------------------------------------------------------- the steps

  predicate Holds(q: Request) { q.phase.Locked? || q.phase.Refreshed? || q.phase.Cleared? }

  // The end of a request's transaction: the session is gone and so is its lock.
  function Drop(s: State, r: RequestId): State
    requires r in s.requests
  {
    s.(requests := s.requests - {r},
       locks := map u | u in s.locks && s.locks[u] != r :: s.locks[u])
  }

  function Advance(s: State, r: RequestId, q: Request): State {
    s.(requests := s.requests[r := q])
  }

  // The fast paths in front of the lock, and the routes' own checks.
  predicate MayStart(kind: Kind, status: Status) {
    match kind
    case Book => status == Pending
    case Reschedule => status == Booked
    case Cancel => true
  }

  // The status a locked request needs after its refresh.
  predicate MayProceed(kind: Kind, status: Status) {
    if kind == Reschedule then status == Booked else status != Booked
  }

  function Refreshing(q: Request, row: Interview): Request {
    var copy := q.copy.(status := row.status);
    q.(phase := Refreshed,
       copy := if q.kind == Reschedule then copy.(sequence := row.sequence) else copy)
  }

  // What the flush of a booking or reschedule leaves on the row.
  function Written(q: Request, row: Interview, changedOnly: bool): Interview {
    var sequence := if q.kind == Reschedule then q.copy.sequence + 1 else 0;
    var row := if q.kind == Reschedule then row else row.(status := Booked);
    var row := if changedOnly && q.copy.start == Some(q.start) then row else row.(start := Some(q.start));
    if changedOnly && q.copy.sequence == sequence then row else row.(sequence := sequence)
  }

  // The partial unique index: an application has one interview that is not cancelled, so such a row goes in only
  // where the application's others are cancelled. A commit against it is an error and a rollback.
  predicate IndexAllows(table: Table, id: InterviewId, row: Interview) {
    row.status != Cancelled ==>
      forall other | other in table && other != id && table[other].application == row.application ::
        table[other].status == Cancelled
  }

  predicate Enabled(s: State, e: Event) {
    match e
    case Create(id, _, _, minutes) => id !in s.table && minutes in {15, 30, 45, 60}
    case Load(r, _, id, _) => r !in s.requests && id in s.table
    case CheckOffered(r, _, _, _, _) => r in s.requests && s.requests[r].phase.Loaded? && s.requests[r].kind != Cancel
    case Lock(r) => r in s.requests && s.requests[r].phase.Offered? && s.requests[r].copy.interviewer !in s.locks
    case Refresh(r) => r in s.requests && s.requests[r].phase.Locked? && s.requests[r].id in s.table
    case CheckUnbooked(r, _) => r in s.requests && s.requests[r].phase.Refreshed?
    case Write(r, _) => r in s.requests && s.requests[r].phase.Cleared? && s.requests[r].id in s.table
    case WriteCancel(r) => r in s.requests && s.requests[r].kind == Cancel && s.requests[r].id in s.table
    case GiveUp(r) => r in s.requests
  }

  function Next(s: State, e: Event): State
    requires Enabled(s, e)
  {
    match e
    case Create(id, application, interviewer, minutes) =>
      var row := Interview(application, interviewer, minutes, Pending, None, 0);
      if IndexAllows(s.table, id, row) then s.(table := s.table[id := row]) else s
    case Load(r, kind, id, start) =>
      if MayStart(kind, s.table[id].status)
      then Advance(s, r, Request(kind, id, start, Loaded, s.table[id], |s.log|)) else s
    case CheckOffered(r, now, offset, hours, fromCopy) =>
      var q := s.requests[r];
      if IsOffered(s.table, Memory(q, fromCopy), q, now, offset, hours)
      then Advance(s, r, q.(phase := Offered)) else Drop(s, r)
    case Lock(r) =>
      var q := s.requests[r];
      Advance(s, r, q.(phase := Locked)).(locks := s.locks[q.copy.interviewer := r])
    case Refresh(r) =>
      var q := s.requests[r];
      if MayProceed(q.kind, s.table[q.id].status)
      then Advance(s, r, Refreshing(q, s.table[q.id])) else Drop(s, r)
    case CheckUnbooked(r, fromCopy) =>
      var q := s.requests[r];
      if IsUnbooked(s.table, Memory(q, fromCopy), q)
      then Advance(s, r, q.(phase := Cleared)) else Drop(s, r)
    case Write(r, changedOnly) =>
      var q := s.requests[r];
      var row := Written(q, s.table[q.id], changedOnly);
      if IndexAllows(s.table, q.id, row)
      then Drop(s, r).(table := s.table[q.id := row], log := s.log + [Commit(q.id, q.kind, row.sequence)])
      else Drop(s, r)
    case WriteCancel(r) =>
      var q := s.requests[r];
      if q.copy.status == Cancelled then Drop(s, r)
      else Drop(s, r).(table := s.table[q.id := s.table[q.id].(status := Cancelled)])
    case GiveUp(r) => Drop(s, r)
  }

  // A run is a sequence of events, each enabled where it happens.
  ghost predicate IsRun(s: State, events: seq<Event>)
    decreases |events|
  {
    events == [] || (Enabled(s, events[0]) && IsRun(Next(s, events[0]), events[1..]))
  }

  ghost function After(s: State, events: seq<Event>): State
    requires IsRun(s, events)
    decreases |events|
  {
    if events == [] then s else After(Next(s, events[0]), events[1..])
  }

  // ---------------------------------------------------------------- the invariant

  predicate RowOk(i: Interview) {
    && 0 < i.minutes <= MAX_INTERVIEW_MINUTES
    && (i.status == Pending ==> i.start == None && i.sequence == 0)
    && (i.status == Booked ==> i.start.Some?)
  }

  // No booked interview of this interviewer, other than the one named, overlaps the window.
  predicate Free(table: Table, id: InterviewId, user: UserId, start: Instant, end: Instant) {
    forall b | b in table && b != id && Occupies(table[b], user) :: !Overlaps(start, end, WindowOf(table[b]))
  }

  /** The promise: booked interviews of one interviewer never overlap. */
  predicate NoDoubleBooking(table: Table) {
    forall a | a in table && table[a].status == Booked && table[a].start.Some? ::
      Free(table, a, table[a].interviewer, table[a].start.value, End(table[a].start.value, table[a].minutes))
  }

  predicate RequestOk(s: State, r: RequestId, q: Request) {
    && q.id in s.table
    && q.copy.interviewer == s.table[q.id].interviewer && q.copy.minutes == s.table[q.id].minutes
    && (q.kind == Book ==> q.copy.start == None && q.copy.sequence == 0)
    && (q.kind == Cancel ==> q.phase.Loaded?)
    && (Holds(q) ==> q.copy.interviewer in s.locks && s.locks[q.copy.interviewer] == r)
    && (q.phase.Refreshed? || q.phase.Cleared? ==> FreshCopy(q, s.table[q.id]))
    && (q.phase.Cleared? ==> Free(s.table, q.id, q.copy.interviewer, q.start, End(q.start, q.copy.minutes)))
  }

  // What nobody else can change under the interviewer's lock; a cancel may still come in.
  predicate FreshCopy(q: Request, row: Interview) {
    if q.kind == Reschedule then row.start.Some? && row.status != Pending && q.copy.sequence == row.sequence
    else row.status != Booked
  }

  predicate LockOk(s: State, u: UserId) {
    u in s.locks ==>
      s.locks[u] in s.requests && Holds(s.requests[s.locks[u]]) && s.requests[s.locks[u]].copy.interviewer == u
  }

  ghost predicate Inv(s: State) {
    && (forall id | id in s.table :: RowOk(s.table[id]))
    && NoDoubleBooking(s.table)
    && (forall r | r in s.requests :: RequestOk(s, r, s.requests[r]))
    && (forall u | u in s.locks :: LockOk(s, u))
  }

  // The bounded look-back loses nothing: a booked row that overlaps is among the windows it reads.
  lemma LookbackFindsOverlap(table: Table, memory: Table, user: UserId, start: Instant, end: Instant, id: InterviewId)
    requires id in table && Occupies(table[id], user) && RowOk(table[id]) && id !in memory
    requires Overlaps(start, end, WindowOf(table[id]))
    ensures WindowOf(table[id])
            in BookedWindows(table, memory, user, start - MAX_INTERVIEW_MINUTES * MINUTE, end)
  {
    assert Seen(table, memory, id) == table[id];
  }

  /** Exactly when the look-back is wide enough: with the rows of a table, it finds every overlap with
      every window if and only if no booked interview lasts longer than the 60 minutes it goes back. */
  lemma LookbackIsExact(table: Table, user: UserId)
    ensures (forall id | id in table && Occupies(table[id], user) :: table[id].minutes <= MAX_INTERVIEW_MINUTES)
            <==> (forall id, start, end | id in table && Occupies(table[id], user) && start < end
                                          && Overlaps(start, end, WindowOf(table[id])) ::
                    start - MAX_INTERVIEW_MINUTES * MINUTE <= table[id].start.value < end)
  {
    if id :| id in table && Occupies(table[id], user) && table[id].minutes > MAX_INTERVIEW_MINUTES {
      var start := table[id].start.value + MAX_INTERVIEW_MINUTES * MINUTE + 1;
      assert Overlaps(start, start + 1, WindowOf(table[id]));
      assert !(start - MAX_INTERVIEW_MINUTES * MINUTE <= table[id].start.value);
    }
  }

  lemma UnbookedIsFree(s: State, q: Request, fromCopy: bool)
    requires forall id | id in s.table :: RowOk(s.table[id])
    requires IsUnbooked(s.table, Memory(q, fromCopy), q)
    ensures Free(s.table, q.id, q.copy.interviewer, q.start, End(q.start, q.copy.minutes))
  {
    var end := End(q.start, q.copy.minutes);
    forall b | b in s.table && b != q.id && Occupies(s.table[b], q.copy.interviewer)
      ensures !Overlaps(q.start, end, WindowOf(s.table[b]))
    {
      if Overlaps(q.start, end, WindowOf(s.table[b])) {
        LookbackFindsOverlap(s.table, Memory(q, fromCopy), q.copy.interviewer, q.start, end, b);
      }
    }
  }

  // What a session remembers of the other interviews is what their rows say.
  predicate RemembersRight(table: Table, memory: Table, q: Request) {
    forall id | id in table && id in memory && id != q.id ::
      memory[id].start == table[id].start && memory[id].minutes == table[id].minutes
  }

  /** A session that also remembers other interviews from its first look is as safe, as long as none of them moved. */
  lemma RememberedRowsAreSeen(table: Table, memory: Table, q: Request)
    requires forall id | id in table :: RowOk(table[id])
    requires RemembersRight(table, memory, q) && IsUnbooked(table, memory, q)
    ensures Free(table, q.id, q.copy.interviewer, q.start, End(q.start, q.copy.minutes))
  {
    var user, end := q.copy.interviewer, End(q.start, q.copy.minutes);
    forall b | b in table && b != q.id && Occupies(table[b], user)
      ensures !Overlaps(q.start, end, WindowOf(table[b]))
    {
      if Overlaps(q.start, end, WindowOf(table[b])) { RememberedOverlapIsSeen(table, memory, q, end, b); }
    }
  }

  lemma RememberedOverlapIsSeen(table: Table, memory: Table, q: Request, end: Instant, id: InterviewId)
    requires RemembersRight(table, memory, q) && id in table && id != q.id && RowOk(table[id])
    requires Occupies(table[id], q.copy.interviewer) && Overlaps(q.start, end, WindowOf(table[id]))
    ensures WindowOf(table[id])
            in BookedWindows(table, memory, q.copy.interviewer, q.start - MAX_INTERVIEW_MINUTES * MINUTE, end)
  {
    assert WindowOf(Seen(table, memory, id)) == WindowOf(table[id]);
  }

  /** It has to forget the ones that did: a remembered interview that was moved onto the chosen time since is read
      with its old start, and the re-check under the lock lets the double booking through. */
  lemma RememberedMoveIsMissed(id: InterviewId, other: InterviewId, start: Instant, user: UserId)
    requires id != other
    ensures var before := Interview(1, user, 60, Booked, Some(start - DAY), 0);
            var moved := before.(start := Some(start), sequence := 1);
            var mine := Interview(2, user, 60, Pending, None, 0);
            var q := Request(Book, id, start, Refreshed, mine, 0);
            var table := map[id := mine, other := moved];
            && IsUnbooked(table, map[other := before], q)
            && !Free(table, id, user, start, End(start, 60))
  {
    var moved := Interview(1, user, 60, Booked, Some(start), 1);
    var table := map[id := Interview(2, user, 60, Pending, None, 0), other := moved];
    assert Occupies(table[other], user) && Overlaps(start, End(start, 60), WindowOf(table[other]));
  }

  // Dropping a request keeps everyone else's claims.
  lemma DropKeepsInv(s: State, r: RequestId)
    requires Inv(s) && r in s.requests
    ensures Inv(Drop(s, r))
  {
    var t := Drop(s, r);
    forall p | p in t.requests ensures RequestOk(t, p, t.requests[p]) {
      assert RequestOk(s, p, s.requests[p]);
    }
    forall u | u in t.locks ensures LockOk(t, u) {
      assert LockOk(s, u);
    }
  }

  // Moving one request on, with no change to the table.
  lemma AdvanceKeepsInv(s: State, r: RequestId, q: Request)
    requires Inv(s) && RequestOk(s, r, q)
    requires r in s.requests && Holds(s.requests[r]) ==> Holds(q) && q.copy.interviewer == s.requests[r].copy.interviewer
    ensures Inv(Advance(s, r, q))
  {
    var t := Advance(s, r, q);
    forall p | p in t.requests ensures RequestOk(t, p, t.requests[p]) {
      if p != r { assert RequestOk(s, p, s.requests[p]); }
    }
    forall u | u in t.locks ensures LockOk(t, u) {
      assert LockOk(s, u);
    }
  }

  lemma CreateKeepsInv(s: State, e: Event)
    requires e.Create? && Enabled(s, e) && Inv(s)
    ensures Inv(Next(s, e))
  {
    var t := Next(s, e);
    forall r | r in t.requests ensures RequestOk(t, r, t.requests[r]) {
      assert RequestOk(s, r, s.requests[r]);
    }
    forall u | u in t.locks ensures LockOk(t, u) { assert LockOk(s, u); }
    forall a | a in t.table && t.table[a].status == Booked && t.table[a].start.Some?
      ensures Free(t.table, a, t.table[a].interviewer, t.table[a].start.value, End(t.table[a].start.value, t.table[a].minutes))
    {
      assert a in s.table && s.table[a] == t.table[a];
    }
  }

  lemma LockKeepsInv(s: State, e: Event)
    requires e.Lock? && Enabled(s, e) && Inv(s)
    ensures Inv(Next(s, e))
  {
    var t := Next(s, e);
    forall p | p in t.requests ensures RequestOk(t, p, t.requests[p]) {
      assert RequestOk(s, p, s.requests[p]);
    }
    forall u | u in t.locks ensures LockOk(t, u) {
      if u != s.requests[e.r].copy.interviewer { assert LockOk(s, u); }
    }
  }

  // A row changes but keeps its interviewer and length, and nobody it concerns holds a claim on it.
  lemma RowChangeKeepsOthers(s: State, id: InterviewId, row: Interview, r: RequestId)
    requires Inv(s) && id in s.table && r in s.requests && s.requests[r].id == id
    requires row.interviewer == s.table[id].interviewer && row.minutes == s.table[id].minutes
    requires Holds(s.requests[r]) || (row == s.table[id].(status := Cancelled))
    ensures var t := Drop(s, r).(table := s.table[id := row]);
            (forall p | p in t.requests :: RequestOk(t, p, t.requests[p])) && (forall u | u in t.locks :: LockOk(t, u))
  {
    var t := Drop(s, r).(table := s.table[id := row]);
    assert RequestOk(s, r, s.requests[r]);
    forall p | p in t.requests ensures RequestOk(t, p, t.requests[p]) {
      assert RequestOk(s, p, s.requests[p]);
    }
    forall u | u in t.locks ensures LockOk(t, u) { assert LockOk(s, u); }
  }

  // A row that is free where it stands, or not booked at all, keeps the table free of double bookings.
  lemma RowChangeKeepsDisjoint(table: Table, id: InterviewId, row: Interview)
    requires NoDoubleBooking(table) && id in table
    requires row.interviewer == table[id].interviewer && row.minutes == table[id].minutes
    requires row.status == Booked && row.start.Some? ==>
               Free(table, id, row.interviewer, row.start.value, End(row.start.value, row.minutes))
    ensures NoDoubleBooking(table[id := row])
  {
    var t := table[id := row];
    forall a | a in t && t[a].status == Booked && t[a].start.Some?
      ensures Free(t, a, t[a].interviewer, t[a].start.value, End(t[a].start.value, t[a].minutes))
    {
      forall b | b in t && b != a && Occupies(t[b], t[a].interviewer)
        ensures !Overlaps(t[a].start.value, End(t[a].start.value, t[a].minutes), WindowOf(t[b]))
      {
        if b == id { assert !Overlaps(t[b].start.value, End(t[b].start.value, t[b].minutes), WindowOf(t[a])); }
      }
    }
  }

  // The row a cleared request writes is sound and stands where the request found room.
  lemma WrittenIsSound(s: State, r: RequestId, changedOnly: bool)
    requires Inv(s) && r in s.requests && s.requests[r].phase.Cleared?
    ensures var q := s.requests[r];
            && q.id in s.table
            && var row := Written(q, s.table[q.id], changedOnly);
            && row.interviewer == s.table[q.id].interviewer && row.minutes == s.table[q.id].minutes
            && RowOk(row)
            && (row.status == Booked && row.start.Some? ==>
                  Free(s.table, q.id, row.interviewer, row.start.value, End(row.start.value, row.minutes)))
  {
    var q := s.requests[r];
    assert RequestOk(s, r, q) && RowOk(s.table[q.id]);
  }

  lemma WriteKeepsInv(s: State, e: Event)
    requires e.Write? && Enabled(s, e) && Inv(s)
    ensures Inv(Next(s, e))
  {
    var q := s.requests[e.r];
    var row := Written(q, s.table[q.id], e.changedOnly);
    if !IndexAllows(s.table, q.id, row) {
      DropKeepsInv(s, e.r);
      return;
    }
    WrittenIsSound(s, e.r, e.changedOnly);
    assert RequestOk(s, e.r, q);
    RowChangeKeepsDisjoint(s.table, q.id, row);
    RowChangeKeepsOthers(s, q.id, row, e.r);
    LogIsNotInv(Drop(s, e.r).(table := s.table[q.id := row]), Next(s, e));
  }

  // The commit log is only a record.
  lemma LogIsNotInv(s: State, t: State)
    requires Inv(s) && t == s.(log := t.log)
    ensures Inv(t)
  {
    forall r | r in t.requests ensures RequestOk(t, r, t.requests[r]) { assert RequestOk(s, r, s.requests[r]); }
    forall u | u in t.locks ensures LockOk(t, u) { assert LockOk(s, u); }
  }

  lemma WriteCancelKeepsInv(s: State, e: Event)
    requires e.WriteCancel? && Enabled(s, e) && Inv(s)
    ensures Inv(Next(s, e))
  {
    var q := s.requests[e.r];
    if q.copy.status == Cancelled {
      DropKeepsInv(s, e.r);
    } else {
      var row := s.table[q.id].(status := Cancelled);
      assert RowOk(s.table[q.id]);
      RowChangeKeepsDisjoint(s.table, q.id, row);
      RowChangeKeepsOthers(s, q.id, row, e.r);
    }
  }

  lemma StepKeepsInv(s: State, e: Event)
    requires Enabled(s, e) && Inv(s)
    ensures Inv(Next(s, e))
  {
    match e
    case Create(_, _, _, _) => CreateKeepsInv(s, e);
    case Load(r, kind, id, start) =>
      if MayStart(kind, s.table[id].status) {
        assert RowOk(s.table[id]);
        AdvanceKeepsInv(s, r, Request(kind, id, start, Loaded, s.table[id], |s.log|));
      }
    case CheckOffered(r, now, offset, hours, fromCopy) =>
      var q := s.requests[r];
      assert RequestOk(s, r, q);
      if IsOffered(s.table, Memory(q, fromCopy), q, now, offset, hours) {
        AdvanceKeepsInv(s, r, q.(phase := Offered));
      } else {
        DropKeepsInv(s, r);
      }
    case Lock(_) =>
      assert RequestOk(s, e.r, s.requests[e.r]);
      LockKeepsInv(s, e);
    case Refresh(r) =>
      var q := s.requests[r];
      assert RequestOk(s, r, q) && RowOk(s.table[q.id]);
      if MayProceed(q.kind, s.table[q.id].status) {
        AdvanceKeepsInv(s, r, Refreshing(q, s.table[q.id]));
      } else {
        DropKeepsInv(s, r);
      }
    case CheckUnbooked(r, fromCopy) =>
      var q := s.requests[r];
      assert RequestOk(s, r, q);
      if IsUnbooked(s.table, Memory(q, fromCopy), q) {
        UnbookedIsFree(s, q, fromCopy);
        AdvanceKeepsInv(s, r, q.(phase := Cleared));
      } else {
        DropKeepsInv(s, r);
      }
    case Write(_, _) => WriteKeepsInv(s, e);
    case WriteCancel(_) => WriteCancelKeepsInv(s, e);
    case GiveUp(r) => DropKeepsInv(s, r);
  }

  lemma {:induction false} RunKeepsInv(s: State, events: seq<Event>)
    requires Inv(s) && IsRun(s, events)
    ensures Inv(After(s, events))
    decreases |events|
  {
    if events != [] {
      StepKeepsInv(s, events[0]);
      RunKeepsInv(Next(s, events[0]), events[1..]);
    }
  }

  /** In every interleaving of any number of create, book, reschedule and cancel requests, two distinct
      booked interviews of the same interviewer never overlap in time. */
  lemma NeverDoubleBooked(events: seq<Event>, a: InterviewId, b: InterviewId)
    requires IsRun(EMPTY, events)
    requires var t := After(EMPTY, events).table;
             a in t && b in t && a != b && t[a].status == Booked && t[b].status == Booked
             && t[a].interviewer == t[b].interviewer
    ensures var t := After(EMPTY, events).table;
            && t[a].start.Some? && t[b].start.Some?
            && (End(t[a].start.value, t[a].minutes) <= t[b].start.value
                || End(t[b].start.value, t[b].minutes) <= t[a].start.value)
  {
    RunKeepsInv(EMPTY, events);
    var t := After(EMPTY, events).table;
    assert RowOk(t[a]) && RowOk(t[b]);
    assert Free(t, a, t[a].interviewer, t[a].start.value, End(t[a].start.value, t[a].minutes));
    assert Occupies(t[b], t[a].interviewer);
  }

  /** A live slot avoids the bookings that start inside the horizon and only those: it is offered exactly when
      it is a slot of the empty calendar and every booking it overlaps began before the first midnight. */
  lemma OfferedExactly(table: Table, user: UserId, t: Instant, now: Instant, offset: int, hours: Availability, duration: nat)
    requires forall id | id in table :: RowOk(table[id])
    ensures var lo := Midnight(LocalDay(now, offset) + 1, offset);
            var busy := BookedWindows(table, map[], user, lo, lo + HORIZON_DAYS * DAY);
            IsSlot(t, now, offset, hours, duration, busy)
            <==> && IsSlot(t, now, offset, hours, duration, {})
                 && forall id | id in table && Occupies(table[id], user)
                                && Overlaps(t, t + duration, WindowOf(table[id])) :: table[id].start.value < lo
  {
    var lo := Midnight(LocalDay(now, offset) + 1, offset);
    var hi := lo + HORIZON_DAYS * DAY;
    var busy := BookedWindows(table, map[], user, lo, hi);
    if IsSlot(t, now, offset, hours, duration, {}) {
      EndsInsideHorizon(t, now, offset, hours, duration);
      forall id | id in table && Occupies(table[id], user) && Overlaps(t, t + duration, WindowOf(table[id]))
        ensures table[id].start.value < lo || WindowOf(table[id]) in busy
      {
        assert Seen(table, map[], id) == table[id];
      }
    }
  }

  // A slot is over before the last midnight of the horizon.
  lemma EndsInsideHorizon(t: Instant, now: Instant, offset: int, hours: Availability, duration: nat)
    requires IsSlot(t, now, offset, hours, duration, {})
    ensures t + duration <= Midnight(LocalDay(now, offset) + 1, offset) + HORIZON_DAYS * DAY
  {
    FromCoordinates(t, offset);
  }

  /** With nobody else moving, the locked re-check refuses an offered slot exactly when a booking from before
      the first midnight runs into it: the one conflict the slot list cannot see. */
  lemma RecheckRefusesExactly(table: Table, q: Request, now: Instant, offset: int, hours: Availability)
    requires forall id | id in table :: RowOk(table[id])
    requires IsOffered(table, map[], q, now, offset, hours)
    ensures IsUnbooked(table, map[], q)
            <==> forall id | id in table && Occupies(table[id], q.copy.interviewer)
                             && table[id].start.value < Midnight(LocalDay(now, offset) + 1, offset)
                   :: !Overlaps(q.start, End(q.start, q.copy.minutes), WindowOf(table[id]))
  {
    var user, end := q.copy.interviewer, End(q.start, q.copy.minutes);
    var lo := Midnight(LocalDay(now, offset) + 1, offset);
    assert Midnight(LocalDay(now, offset) + 1 + HORIZON_DAYS, offset) == lo + HORIZON_DAYS * DAY;
    OfferedExactly(table, user, q.start, now, offset, hours, q.copy.minutes * MINUTE);
    forall id | id in table && Occupies(table[id], user) && Overlaps(q.start, end, WindowOf(table[id]))
      ensures WindowOf(table[id]) in BookedWindows(table, map[], user, q.start - MAX_INTERVIEW_MINUTES * MINUTE, end)
    {
      LookbackFindsOverlap(table, map[], user, q.start, end, id);
    }
  }

  // ---------------------------------------------------------------- one interview for an application

  // Two interviews of one application are never both under way.
  predicate OneActive(table: Table) {
    forall a | a in table && table[a].status != Cancelled :: IndexAllows(table, a, table[a])
  }

  lemma InsertKeepsOneActive(table: Table, id: InterviewId, row: Interview)
    requires OneActive(table) && IndexAllows(table, id, row)
    requires id in table ==> table[id].application == row.application
    ensures OneActive(table[id := row])
  {
    var t := table[id := row];
    forall a | a in t && t[a].status != Cancelled ensures IndexAllows(t, a, t[a]) {
      if a != id { assert IndexAllows(table, a, table[a]); }
    }
  }

  lemma StepKeepsOneActive(s: State, e: Event)
    requires Enabled(s, e) && OneActive(s.table)
    ensures OneActive(Next(s, e).table)
  {
    match e
    case Create(id, application, interviewer, minutes) =>
      var row := Interview(application, interviewer, minutes, Pending, None, 0);
      if IndexAllows(s.table, id, row) { InsertKeepsOneActive(s.table, id, row); }
    case Write(r, changedOnly) =>
      var q := s.requests[r];
      var row := Written(q, s.table[q.id], changedOnly);
      if IndexAllows(s.table, q.id, row) { InsertKeepsOneActive(s.table, q.id, row); }
    case WriteCancel(r) =>
      var q := s.requests[r];
      InsertKeepsOneActive(s.table, q.id, s.table[q.id].(status := Cancelled));
    case _ =>
  }

  /** In every run an application has at most one interview that is not cancelled, whatever is cancelled, created
      anew and brought back. */
  lemma {:induction false} OneActiveInterview(s: State, events: seq<Event>)
    requires IsRun(s, events) && OneActive(s.table)
    ensures OneActive(After(s, events).table)
    decreases |events|
  {
    if events != [] {
      StepKeepsOneActive(s, events[0]);
      OneActiveInterview(Next(s, events[0]), events[1..]);
    }
  }

  // ---------------------------------------------------------------- runs end to end

  lemma {:induction false} RunsJoin(s: State, first: seq<Event>, second: seq<Event>)
    requires IsRun(s, first) && IsRun(After(s, first), second)
    ensures IsRun(s, first + second) && After(s, first + second) == After(After(s, first), second)
    decreases |first|
  {
    if first == [] {
      assert first + second == second;
    } else {
      assert (first + second)[0] == first[0] && (first + second)[1..] == first[1..] + second;
      RunsJoin(Next(s, first[0]), first[1..], second);
    }
  }

  lemma OneStep(s: State, e: Event)
    requires Enabled(s, e)
    ensures IsRun(s, [e]) && After(s, [e]) == Next(s, e)
  {
    assert [e][1..] == [];
    assert IsRun(Next(s, e), []) && After(Next(s, e), []) == Next(s, e);
  }

  lemma OneMore(s: State, events: seq<Event>, e: Event)
    requires IsRun(s, events) && Enabled(After(s, events), e)
    ensures IsRun(s, events + [e]) && After(s, events + [e]) == Next(After(s, events), e)
  {
    OneStep(After(s, events), e);
    RunsJoin(s, events, [e]);
  }
}
