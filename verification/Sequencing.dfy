/**
 The iTIP SEQUENCE numbers of services/interviews.py over runs of the booking protocol
 (section 3.8.7.4 of RFC 5545: a revision carries a higher number than the one it replaces).
 */
module Sequencing {
  import opened Basics
  import opened Slots
  import opened Booking
  import opened SampleRuns

  // The number the last commit of an interview left, 0 before the first.
  function LastSequence(log: seq<Commit>, id: InterviewId): int {
    if log == [] then 0
    else if log[|log| - 1].id == id then log[|log| - 1].sequence
    else LastSequence(log[..|log| - 1], id)
  }

  function CommitsOf(log: seq<Commit>, id: InterviewId): nat {
    if log == [] then 0
    else CommitsOf(log[..|log| - 1], id) + if log[|log| - 1].id == id then 1 else 0
  }

  predicate NoBooking(log: seq<Commit>, id: InterviewId, from: nat) {
    forall k | from <= k < |log| :: log[k].id == id ==> log[k].kind == Reschedule
  }

  predicate BuildsOnLast(log: seq<Commit>, k: nat)
    requires k < |log|
  {
    log[k].kind == Reschedule ==> log[k].sequence == LastSequence(log[..k], log[k].id) + 1
  }

  predicate CopyIsFromLog(s: State, q: Request) {
    q.loadedAt <= |s.log|
    && (q.kind == Cancel ==> q.copy.sequence == LastSequence(s.log[..q.loadedAt], q.id))
  }

  ghost predicate SeqInv(s: State) {
    && Inv(s)
    && (forall k | 0 <= k < |s.log| :: s.log[k].id in s.table && s.log[k].kind != Cancel)
    && (forall id | id in s.table :: s.table[id].sequence == LastSequence(s.log, id))
    && (forall k | 0 <= k < |s.log| :: BuildsOnLast(s.log, k))
    && (forall r | r in s.requests :: CopyIsFromLog(s, s.requests[r]))
  }

  lemma {:induction false} NoCommitNoNumber(log: seq<Commit>, id: InterviewId)
    requires forall k | 0 <= k < |log| :: log[k].id != id
    ensures LastSequence(log, id) == 0
    decreases |log|
  {
    if log != [] { NoCommitNoNumber(log[..|log| - 1], id); }
  }

  // One more commit at the end of the log.
  lemma AppendCommit(log: seq<Commit>, c: Commit, k: nat, id: InterviewId)
    requires k <= |log|
    ensures (log + [c])[..k] == log[..k]
    ensures LastSequence(log + [c], id) == if c.id == id then c.sequence else LastSequence(log, id)
  {
    assert (log + [c])[..|log|] == log;
  }

  // The step puts a new number on a row.
  predicate Commits(s: State, e: Event)
    requires Enabled(s, e)
  {
    e.Write? && var q := s.requests[e.r]; IndexAllows(s.table, q.id, Written(q, s.table[q.id], e.changedOnly))
  }

  lemma WriteKeepsSeqInv(s: State, e: Event)
    requires Enabled(s, e) && Commits(s, e) && SeqInv(s)
    ensures SeqInv(Next(s, e))
  {
    StepKeepsInv(s, e);
    var q, t := s.requests[e.r], Next(s, e);
    var c := t.log[|s.log|];
    assert RequestOk(s, e.r, q);
    assert s.log + [c] == t.log;
    forall id | id in t.table ensures t.table[id].sequence == LastSequence(t.log, id) {
      AppendCommit(s.log, c, 0, id);
    }
    forall k | 0 <= k < |t.log| ensures BuildsOnLast(t.log, k) {
      AppendCommit(s.log, c, k, t.log[k].id);
      if k < |s.log| { assert BuildsOnLast(s.log, k); }
    }
    forall r | r in t.requests ensures CopyIsFromLog(t, t.requests[r]) {
      assert CopyIsFromLog(s, s.requests[r]);
      AppendCommit(s.log, c, s.requests[r].loadedAt, 0);
    }
  }

  // Every other step leaves the log alone, and every number where it was.
  lemma OtherStepsKeepNumbers(s: State, e: Event)
    requires Enabled(s, e) && Inv(s) && !Commits(s, e)
    ensures var t := Next(s, e);
            && t.log == s.log
            && (forall id | id in s.table :: id in t.table && t.table[id].sequence == s.table[id].sequence)
            && (forall id | id in t.table && id !in s.table :: t.table[id].sequence == 0)
  {
  }

  // ... and a cancel's copy is the row as it was loaded.
  lemma OtherStepsKeepCopies(s: State, e: Event, r: RequestId)
    requires Enabled(s, e) && Inv(s) && !Commits(s, e)
    requires r in Next(s, e).requests
    ensures var q := Next(s, e).requests[r];
            if r in s.requests
            then q.loadedAt == s.requests[r].loadedAt && q.id == s.requests[r].id && q.kind == s.requests[r].kind
                 && (q.kind == Cancel ==> q.copy.sequence == s.requests[r].copy.sequence)
            else q.loadedAt == |s.log| && q.id in s.table && q.copy == s.table[q.id]
  {
    if r in s.requests { assert RequestOk(s, r, s.requests[r]); }
    hide Inv, IndexAllows, IsOffered, IsUnbooked;
  }

  lemma StepKeepsSeqInv(s: State, e: Event)
    requires Enabled(s, e) && SeqInv(s)
    ensures SeqInv(Next(s, e))
  {
    if Commits(s, e) {
      WriteKeepsSeqInv(s, e);
      return;
    }
    var t := Next(s, e);
    assert Inv(t) by { StepKeepsInv(s, e); }
    OtherStepsKeepNumbers(s, e);
    forall id | id in t.table ensures t.table[id].sequence == LastSequence(t.log, id) {
      if id !in s.table { NoCommitNoNumber(s.log, id); }
    }
    assert s.log[..|s.log|] == s.log;
    forall r | r in t.requests ensures CopyIsFromLog(t, t.requests[r]) {
      OtherStepsKeepCopies(s, e, r);
      if r in s.requests { assert CopyIsFromLog(s, s.requests[r]); }
    }
  }

  lemma {:induction false} RunKeepsSeqInv(s: State, events: seq<Event>)
    requires SeqInv(s) && IsRun(s, events)
    ensures SeqInv(After(s, events))
    decreases |events|
  {
    if events != [] {
      StepKeepsSeqInv(s, events[0]);
      RunKeepsSeqInv(Next(s, events[0]), events[1..]);
    }
  }

  // From any commit on, with no booking in between, the numbers count the commits.
  lemma {:induction false} NumbersCountCommits(log: seq<Commit>, id: InterviewId, from: nat)
    requires from <= |log| && NoBooking(log, id, from)
    requires forall k | 0 <= k < |log| :: BuildsOnLast(log, k)
    ensures LastSequence(log, id) == LastSequence(log[..from], id) + CommitsOf(log[from..], id)
    decreases |log|
  {
    if from == |log| {
      assert log[..from] == log;
    } else {
      var n := |log| - 1;
      var shorter := log[..n];
      forall k | 0 <= k < n ensures BuildsOnLast(shorter, k) {
        assert BuildsOnLast(log, k) && shorter[..k] == log[..k];
      }
      assert shorter[..from] == log[..from];
      NumbersCountCommits(shorter, id, from);
      assert log[from..][..n - from] == shorter[from..];
      assert BuildsOnLast(log, n);
    }
  }

  /** Any number of concurrent reschedules of one booked interview commit consecutive SEQUENCE numbers:
      between two commits of an interview with no booking after the first, the number rises by exactly the
      commits in between, however the requests were interleaved. */
  lemma ReschedulesAreConsecutive(events: seq<Event>, i: nat, j: nat)
    requires IsRun(EMPTY, events)
    requires var log := After(EMPTY, events).log;
             i < j < |log| && log[i].id == log[j].id && NoBooking(log[..j + 1], log[i].id, i + 1)
    ensures var log := After(EMPTY, events).log;
            log[j].sequence == log[i].sequence + CommitsOf(log[i + 1..j + 1], log[i].id)
            && log[j].sequence > log[i].sequence
  {
    RunKeepsSeqInv(EMPTY, events);
    ConsecutiveInLog(After(EMPTY, events).log, i, j);
  }

  lemma ConsecutiveInLog(log: seq<Commit>, i: nat, j: nat)
    requires i < j < |log| && log[i].id == log[j].id && NoBooking(log[..j + 1], log[i].id, i + 1)
    requires forall k | 0 <= k < |log| :: BuildsOnLast(log, k)
    ensures log[j].sequence == log[i].sequence + CommitsOf(log[i + 1..j + 1], log[i].id)
    ensures log[j].sequence > log[i].sequence
  {
    var id, prefix := log[i].id, log[..j + 1];
    forall k | 0 <= k < |prefix| ensures BuildsOnLast(prefix, k) {
      assert BuildsOnLast(log, k) && prefix[..k] == log[..k];
    }
    NumbersCountCommits(prefix, id, i + 1);
    assert prefix[i + 1..] == log[i + 1..j + 1];
    assert log[i + 1..j + 1][|log[i + 1..j + 1]| - 1] == log[j];
  }

  // cancel_notice_fields: the number of the METHOD:CANCEL mail built from a copy of the row, if any time was ever booked.
  function CancelNotice(copy: Interview): Option<int> {
    if copy.start == None then None else Some(copy.sequence + 1)
  }

  // The commits of the booking the interview is in now.
  predicate IsCurrent(log: seq<Commit>, id: InterviewId, k: nat) {
    k < |log| && log[k].id == id && NoBooking(log, id, k + 1)
  }

  /** A cancel notice outranks every invite of the current booking exactly when no reschedule was committed
      between the cancel's load and its notice: built from the last committed state it is strictly higher. */
  lemma CancelNoticeIsNewest(events: seq<Event>, r: RequestId)
    requires IsRun(EMPTY, events)
    requires var s := After(EMPTY, events);
             && r in s.requests && s.requests[r].kind == Cancel && s.requests[r].copy.start.Some?
             && NoBooking(s.log, s.requests[r].id, s.requests[r].loadedAt)
    ensures var s := After(EMPTY, events);
            var q := s.requests[r];
            (forall k | 0 <= k < |s.log| && IsCurrent(s.log, q.id, k) :: CancelNotice(q.copy).value > s.log[k].sequence)
            <==> (forall k | q.loadedAt <= k < |s.log| :: s.log[k].id != q.id)
  {
    RunKeepsSeqInv(EMPTY, events);
    var s := After(EMPTY, events);
    assert CopyIsFromLog(s, s.requests[r]);
    NoticeOutranksLog(s.log, s.requests[r].id, s.requests[r].loadedAt);
  }

  // The same on a log alone.
  lemma NoticeOutranksLog(log: seq<Commit>, id: InterviewId, loadedAt: nat)
    requires loadedAt <= |log| && NoBooking(log, id, loadedAt)
    requires forall k | 0 <= k < |log| :: BuildsOnLast(log, k)
    ensures (forall k | 0 <= k < |log| && IsCurrent(log, id, k) :: LastSequence(log[..loadedAt], id) + 1 > log[k].sequence)
            <==> (forall k | loadedAt <= k < |log| :: log[k].id != id)
  {
    NumbersCountCommits(log, id, loadedAt);
    var late := log[loadedAt..];
    CountsNone(late, id);
    if k :| loadedAt <= k < |log| && log[k].id == id {
      assert late[k - loadedAt] == log[k];
      var last := LastOf(log, id);
      assert IsCurrent(log, id, last);
    } else {
      assert forall k | 0 <= k < |late| :: late[k].id != id by {
        forall k | 0 <= k < |late| ensures late[k].id != id { assert late[k] == log[k + loadedAt]; }
      }
      forall k | 0 <= k < |log| && IsCurrent(log, id, k) ensures log[k].sequence <= LastSequence(log, id) {
        CurrentIsAtMostLast(log, id, k);
      }
    }
  }

  lemma CurrentIsAtMostLast(log: seq<Commit>, id: InterviewId, k: nat)
    requires IsCurrent(log, id, k)
    requires forall i | 0 <= i < |log| :: BuildsOnLast(log, i)
    ensures log[k].sequence <= LastSequence(log, id)
  {
    NumbersCountCommits(log, id, k + 1);
    assert log[..k + 1][..k] == log[..k];
  }

  lemma {:induction false} CountsNone(log: seq<Commit>, id: InterviewId)
    ensures CommitsOf(log, id) == 0 <==> forall k | 0 <= k < |log| :: log[k].id != id
    decreases |log|
  {
    if log != [] {
      var shorter := log[..|log| - 1];
      CountsNone(shorter, id);
      assert forall k | 0 <= k < |shorter| :: shorter[k] == log[k];
    }
  }

  // The position of an interview's last commit.
  ghost function LastOf(log: seq<Commit>, id: InterviewId): (k: nat)
    requires exists k :: 0 <= k < |log| && log[k].id == id
    ensures k < |log| && log[k].id == id && log[k].sequence == LastSequence(log, id)
    ensures forall j | k < j < |log| :: log[j].id != id
    decreases |log|
  {
    if log[|log| - 1].id == id then |log| - 1
    else
      var shorter := log[..|log| - 1];
      assert exists k :: 0 <= k < |shorter| && shorter[k].id == id by {
        var k :| 0 <= k < |log| && log[k].id == id;
        assert shorter[k].id == id;
      }
      LastOf(shorter, id)
  }

  // ---------------------------------------------------------------- a notice that ties

  const LATER := 8 * DAY
  const MOVING := Request(Reschedule, 0, LATER, Loaded, BOOKED, 1)
  const CANCELLING := Request(Cancel, 0, 0, Loaded, BOOKED, 1)
  const MOVED := BOOKED.(start := Some(LATER), sequence := 1)

  // A cancel loads the booking; then a reschedule to next week comes and goes.
  function CancelLoads(): seq<Event> {
    [Load(2, Cancel, 0, 0)] + [Load(3, Reschedule, 0, LATER)] + [CheckOffered(3, 0, 0, OPEN_FRIDAY, false)]
  }

  function RescheduleCommits(): seq<Event> { [Lock(3)] + [Refresh(3)] + [CheckUnbooked(3, false)] + [Write(3, false)] }

  lemma RescheduleIsOffered(table: Table)
    requires table == map[0 := BOOKED]
    ensures IsOffered(table, Memory(MOVING, false), MOVING, 0, 0, OPEN_FRIDAY)
    ensures forall phase :: IsUnbooked(table, Memory(MOVING, false), MOVING.(phase := phase))
  {
    assert LocalDay(LATER, 0) == 8 && TimeOfDay(LATER, 0) == 0 && DayOfWeek(8) == 4;
  }

  lemma BothLoad(s: State)
    requires s == State(map[0 := BOOKED], map[], map[], [Commit(0, Book, 0)])
    ensures IsRun(s, CancelLoads())
    ensures After(s, CancelLoads()) == s.(requests := map[2 := CANCELLING, 3 := MOVING.(phase := Offered)])
  {
    OneStep(s, Load(2, Cancel, 0, 0));
    OneMore(s, [Load(2, Cancel, 0, 0)], Load(3, Reschedule, 0, LATER));
    var e2 := [Load(2, Cancel, 0, 0)] + [Load(3, Reschedule, 0, LATER)];
    assert After(s, e2) == s.(requests := map[2 := CANCELLING, 3 := MOVING]);
    RescheduleIsOffered(s.table);
    OneMore(s, e2, CheckOffered(3, 0, 0, OPEN_FRIDAY, false));
  }

  lemma CancelCrosses(s: State)
    requires s == State(map[0 := BOOKED], map[2 := CANCELLING, 3 := MOVING.(phase := Offered)], map[], [Commit(0, Book, 0)])
    ensures IsRun(s, RescheduleCommits())
    ensures After(s, RescheduleCommits())
            == State(map[0 := MOVED], map[2 := CANCELLING], map[], [Commit(0, Book, 0), Commit(0, Reschedule, 1)])
  {
    OneStep(s, Lock(3));
    OneMore(s, [Lock(3)], Refresh(3));
    var s5 := s.(requests := map[2 := CANCELLING, 3 := MOVING.(phase := Refreshed)], locks := map[7 := 3]);
    assert After(s, [Lock(3)] + [Refresh(3)]) == s5;
    RescheduleIsWritten(s5);
    OneMore(s, [Lock(3)] + [Refresh(3)], CheckUnbooked(3, false));
    OneMore(s, [Lock(3)] + [Refresh(3)] + [CheckUnbooked(3, false)], Write(3, false));
  }

  lemma RescheduleIsWritten(s: State)
    requires s == State(map[0 := BOOKED], map[2 := CANCELLING, 3 := MOVING.(phase := Refreshed)], map[7 := 3], [Commit(0, Book, 0)])
    ensures Enabled(s, CheckUnbooked(3, false))
    ensures var s' := Next(s, CheckUnbooked(3, false));
            && Enabled(s', Write(3, false))
            && Next(s', Write(3, false))
               == State(map[0 := MOVED], map[2 := CANCELLING], map[], [Commit(0, Book, 0), Commit(0, Reschedule, 1)])
  {
    RescheduleIsOffered(s.table);
    var s' := Next(s, CheckUnbooked(3, false));
    assert s'.requests - {3} == map[2 := CANCELLING];
    assert Drop(s', 3).locks == map[];
    assert s.log + [Commit(0, Reschedule, 1)] == [Commit(0, Book, 0), Commit(0, Reschedule, 1)];
  }

  lemma TiesInLog(log: seq<Commit>)
    requires log == [Commit(0, Book, 0), Commit(0, Reschedule, 1)]
    ensures IsCurrent(log, 0, 1) && CancelNotice(CANCELLING.copy) == Some(log[1].sequence)
  {
  }

  /** A reschedule that commits after the cancel loaded the row takes the number the cancel's notice will carry, so
      the notice does not outrank the invite the calendars show. */
  lemma CancelNoticeCanTie()
    ensures var events := FirstBooking() + (CancelLoads() + RescheduleCommits());
            && IsRun(EMPTY, events)
            && var s := After(EMPTY, events);
               && 2 in s.requests && s.requests[2] == CANCELLING
               && |s.log| == 2 && IsCurrent(s.log, 0, 1) && CancelNotice(CANCELLING.copy) == Some(s.log[1].sequence)
  {
    hide FirstBooking, CancelLoads, RescheduleCommits, IsCurrent, CancelNotice;
    FirstIsBooked();
    var s := After(EMPTY, FirstBooking());
    BothLoad(s);
    CancelCrosses(After(s, CancelLoads()));
    RunsJoin(s, CancelLoads(), RescheduleCommits());
    RunsJoin(EMPTY, FirstBooking(), CancelLoads() + RescheduleCommits());
    TiesInLog(After(EMPTY, FirstBooking() + (CancelLoads() + RescheduleCommits())).log);
  }
}
