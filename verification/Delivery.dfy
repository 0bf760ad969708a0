/** Late but not lost: the sweeps of services/outbox.py and the progress of every delivery. */
module Delivery {
  import opened Basics
  import opened Pipeline
  import opened Outbox

  const SWEEP_AGE := 5 * MINUTE
  const SWEEP_LIMIT := 200

  // ---------------------------------------------------------------- progress

  function StatusRank(m: Mail): nat {
    match m.status
    case Scheduled => 2
    case Queued => 1
    case _ => 0
  }

  // The status rank falls, or it stays and the remaining attempts fall.
  predicate Falls(m: Mail, n: Mail) {
    StatusRank(n) < StatusRank(m) || (StatusRank(n) == StatusRank(m) && m.attempts < n.attempts <= MAX_ATTEMPTS)
  }

  // The delivery of this mail came to an end that was not a no-op.
  predicate Effective(s: State, e: Event, id: MailId)
    requires Enabled(s, e)
  {
    match e
    case Finish(w, _) => s.workers[w].id == id
    case CheckStage(w) => s.workers[w].id == id && w !in Next(s, e).workers
    case _ => false
  }

  /** Every delivery that is not a no-op makes progress: the pair of status rank and remaining attempts falls. */
  lemma DeliveryFalls(s: State, e: Event, id: MailId)
    requires Inv(s) && Enabled(s, e) && Effective(s, e, id)
    ensures id in s.mails && Falls(s.mails[id], Next(s, e).mails[id])
  {
    assert WorkerOk(s, e.w);
    assert MailOk(s.mails[id], About(s.log, id), s.now);
  }

  // The deliveries a row can still take.
  function Budget(m: Mail): nat
    requires m.attempts <= MAX_ATTEMPTS
  {
    if Live(m) then MAX_ATTEMPTS - m.attempts else 0
  }

  ghost function EffectiveDeliveries(s: State, events: seq<Event>, id: MailId): nat
    requires IsRun(s, events)
    decreases |events|
  {
    if events == [] then 0
    else (if Effective(s, events[0], id) then 1 else 0) + EffectiveDeliveries(Next(s, events[0]), events[1..], id)
  }

  lemma DeliverySpendsBudget(s: State, e: Event, id: MailId)
    requires Inv(s) && Enabled(s, e) && id in s.mails && (e.Finish? || e.CheckStage?)
    ensures var t := Next(s, e);
            && id in t.mails && s.mails[id].attempts <= MAX_ATTEMPTS && t.mails[id].attempts <= MAX_ATTEMPTS
            && Budget(t.mails[id]) + (if Effective(s, e, id) then 1 else 0) <= Budget(s.mails[id])
  {
    hide About, RowLocked;
    assert MailOk(s.mails[id], About(s.log, id), s.now);
    assert WorkerOk(s, e.w);
    if e.Finish? {
      FinishSpends(s, e, id);
    }
  }

  lemma FinishSpends(s: State, e: Event, id: MailId)
    requires Enabled(s, e) && e.Finish? && id in s.mails && s.mails[id].attempts <= MAX_ATTEMPTS
    requires s.workers[e.w].id == id ==> Live(s.mails[id]) && s.mails[id].attempts < MAX_ATTEMPTS
    ensures var t := Next(s, e);
            && id in t.mails && t.mails[id].attempts <= MAX_ATTEMPTS
            && Budget(t.mails[id]) + (if Effective(s, e, id) then 1 else 0) <= Budget(s.mails[id])
  {
  }

  // Anything but a delivery spends no attempt, and never brings a row back to life.
  lemma OtherStepsSpendNothing(s: State, e: Event, id: MailId)
    requires Enabled(s, e) && id in s.mails && !e.Finish? && !e.CheckStage?
    ensures var t := Next(s, e);
            && id in t.mails && t.mails[id].attempts == s.mails[id].attempts && (Live(t.mails[id]) ==> Live(s.mails[id]))
  {
  }

  lemma StepSpendsBudget(s: State, e: Event, id: MailId)
    requires Inv(s) && Enabled(s, e) && id in s.mails
    ensures var t := Next(s, e);
            && id in t.mails && s.mails[id].attempts <= MAX_ATTEMPTS && t.mails[id].attempts <= MAX_ATTEMPTS
            && Budget(t.mails[id]) + (if Effective(s, e, id) then 1 else 0) <= Budget(s.mails[id])
  {
    if e.Finish? || e.CheckStage? {
      DeliverySpendsBudget(s, e, id);
    } else {
      assert MailOk(s.mails[id], About(s.log, id), s.now);
      OtherStepsSpendNothing(s, e, id);
    }
  }

  /** In every run a mail goes through at most three deliveries that do anything, and after three it is over. */
  lemma {:induction false} ThreeDeliveriesEndIt(s: State, events: seq<Event>, id: MailId)
    requires Inv(s) && IsRun(s, events) && id in s.mails
    ensures var n, t := EffectiveDeliveries(s, events, id), After(s, events);
            && id in t.mails && s.mails[id].attempts <= MAX_ATTEMPTS && t.mails[id].attempts <= MAX_ATTEMPTS
            && n + Budget(t.mails[id]) <= Budget(s.mails[id]) && n <= 3
            && (n == 3 ==> !Live(t.mails[id]))
    decreases |events|
  {
    if events != [] {
      StepSpendsBudget(s, events[0], id);
      StepKeepsInv(s, events[0]);
      ThreeDeliveriesEndIt(Next(s, events[0]), events[1..], id);
    }
    RunKeepsInv(s, events);
    assert MailOk(s.mails[id], About(s.log, id), s.now);
    var t := After(s, events);
    assert id in t.mails && MailOk(t.mails[id], About(t.log, id), t.now);
  }

  // ---------------------------------------------------------------- the sweep

  // When a row should have gone out: its send time if it was held, its creation if not.
  function DueTime(m: Mail): Instant { if m.sendAfter.Some? then m.sendAfter.value else m.createdAt }

  // More than five minutes past it.
  predicate IsLate(m: Mail, now: Instant) {
    match m.sendAfter
    case Some(at) => at + 300_000_000 < now
    case None => m.createdAt + 300_000_000 < now
  }

  predicate Stuck(m: Mail, cutoff: Instant) { m.status == Queued && DueTime(m) < cutoff }

  predicate Overdue(m: Mail, cutoff: Instant) {
    m.status == Scheduled && m.sendAfter.Some? && m.sendAfter.value < cutoff
  }

  function Matching(mails: map<MailId, Mail>, matches: Mail -> bool): set<MailId> {
    set id | id in mails && matches(mails[id])
  }

  // A query with ORDER BY key LIMIT limit: which rows it may return.
  ghost predicate IsSelection(ids: seq<MailId>, mails: map<MailId, Mail>, matches: Mail -> bool, key: Mail -> int, limit: nat) {
    && (forall i, j | 0 <= i < j < |ids| :: ids[i] != ids[j])
    && (forall id | id in ids :: id in mails && matches(mails[id]))
    && |ids| == (if |Matching(mails, matches)| < limit then |Matching(mails, matches)| else limit)
    && (forall id, other | id in ids && other in Matching(mails, matches) && other !in ids :: key(mails[id]) <= key(mails[other]))
  }

  ghost predicate IsSweep(stuck: seq<MailId>, overdue: seq<MailId>, mails: map<MailId, Mail>, cutoff: Instant) {
    && IsSelection(stuck, mails, (m: Mail) => Stuck(m, cutoff), (m: Mail) => m.createdAt, SWEEP_LIMIT)
    && IsSelection(overdue, mails, (m: Mail) => Overdue(m, cutoff), (m: Mail) => DueTime(m), SWEEP_LIMIT)
  }

  function SetOf(ids: seq<MailId>): set<MailId> { set id | id in ids }

  lemma {:induction false} DistinctSize(ids: seq<MailId>)
    requires forall i, j | 0 <= i < j < |ids| :: ids[i] != ids[j]
    ensures |SetOf(ids)| == |ids|
    decreases |ids|
  {
    if ids != [] {
      var rest := ids[..|ids| - 1];
      DistinctSize(rest);
      assert SetOf(ids) == SetOf(rest) + {ids[|ids| - 1]};
    }
  }

  lemma SubsetOfSameSize(a: set<MailId>, b: set<MailId>)
    requires a <= b && |a| == |b|
    ensures a == b
  {
    assert |b - a| == |b| - |a|;
    assert b == a + (b - a);
  }

  // An unlimited selection misses nothing, a full one only rows that are no older than what it took.
  lemma SelectionIsComplete(ids: seq<MailId>, mails: map<MailId, Mail>, matches: Mail -> bool, key: Mail -> int, limit: nat, id: MailId)
    requires IsSelection(ids, mails, matches, key, limit) && id in mails && matches(mails[id])
    ensures id in ids || (|ids| == limit < |Matching(mails, matches)| && forall other | other in ids :: key(mails[other]) <= key(mails[id]))
  {
    var taken := SetOf(ids);
    DistinctSize(ids);
    assert taken <= Matching(mails, matches);
    assert id in Matching(mails, matches);
    if |ids| == |Matching(mails, matches)| { SubsetOfSameSize(taken, Matching(mails, matches)); }
  }

  /** The sweep finds what was lost: with at most 200 rows of each kind, it re-enqueues exactly the live rows more
      than five minutes past their due time, whatever became of their first job, and each of them is deliverable. */
  lemma SweepFindsExactlyTheLate(s: State, stuck: seq<MailId>, overdue: seq<MailId>, id: MailId)
    requires Inv(s) && id in s.mails && IsSweep(stuck, overdue, s.mails, s.now - SWEEP_AGE)
    requires |Matching(s.mails, (m: Mail) => Stuck(m, s.now - SWEEP_AGE))| <= 200
    requires |Matching(s.mails, (m: Mail) => Overdue(m, s.now - SWEEP_AGE))| <= 200
    ensures id in stuck + overdue <==> s.mails[id].status in {Scheduled, Queued} && IsLate(s.mails[id], s.now)
    ensures id in stuck + overdue ==> Deliverable(s.mails[id], s.now)
  {
    var cutoff := s.now - SWEEP_AGE;
    var m := s.mails[id];
    assert MailOk(m, About(s.log, id), s.now);
    if Stuck(m, cutoff) {
      SelectionIsComplete(stuck, s.mails, (m: Mail) => Stuck(m, cutoff), (m: Mail) => m.createdAt, SWEEP_LIMIT, id);
    }
    if Overdue(m, cutoff) {
      SelectionIsComplete(overdue, s.mails, (m: Mail) => Overdue(m, cutoff), (m: Mail) => DueTime(m), SWEEP_LIMIT, id);
    }
  }

  /** Past 200 rows a late one may be passed over, but only for 200 rows of its kind that are at least as old. */
  lemma SweepSkipsOnlyForOlder(s: State, stuck: seq<MailId>, overdue: seq<MailId>, id: MailId)
    requires Inv(s) && id in s.mails && IsSweep(stuck, overdue, s.mails, s.now - SWEEP_AGE)
    requires s.mails[id].status in {Scheduled, Queued} && IsLate(s.mails[id], s.now) && id !in stuck + overdue
    ensures if s.mails[id].status == Queued
            then |stuck| == 200 && forall other | other in stuck :: s.mails[other].createdAt <= s.mails[id].createdAt
            else |overdue| == 200 && s.mails[id].sendAfter.Some?
                 && forall other | other in overdue ::
                      s.mails[other].sendAfter.Some? && s.mails[other].sendAfter.value <= s.mails[id].sendAfter.value
  {
    var cutoff := s.now - SWEEP_AGE;
    var m := s.mails[id];
    assert MailOk(m, About(s.log, id), s.now);
    if m.status == Queued {
      SelectionIsComplete(stuck, s.mails, (m: Mail) => Stuck(m, cutoff), (m: Mail) => m.createdAt, SWEEP_LIMIT, id);
    } else {
      SelectionIsComplete(overdue, s.mails, (m: Mail) => Overdue(m, cutoff), (m: Mail) => DueTime(m), SWEEP_LIMIT, id);
    }
  }

  // ---------------------------------------------------------------- released is not yet delivered

  lemma {:induction false} OneMore(s: State, events: seq<Event>, e: Event)
    requires IsRun(s, events) && Enabled(After(s, events), e)
    ensures IsRun(s, events + [e]) && After(s, events + [e]) == Next(After(s, events), e)
    decreases |events|
  {
    var all := events + [e];
    if events == [] {
      assert all[0] == e && all[1..] == [];
    } else {
      OneMore(Next(s, events[0]), events[1..], e);
      assert all[0] == events[0] && all[1..] == events[1..] + [e];
    }
  }

  const FRESH := State(0, map[], map[4 := Rejected], map[], map[], [])
  const HELD := Mail(Some(4), true, 0, Some(10), Scheduled, 0, None, None)
  const RETRYING := HELD.(status := Queued, attempts := 1, lastError := Some("timeout"))

  // A held rejection, a withdrawal that waits for the worker's lock, a dispatch that fails.
  function ReleasedFirst(): seq<Event> {
    [Queue(0, Some(4), true, Some(10)), Open(1, 4), Look(1), Collect(1), Tick(10),
     Grab(2, 0), CheckStage(2), Finish(2, Broken("timeout"))]
  }

  lemma Step(n: nat, before: State, after: State)
    requires n < |ReleasedFirst()| && IsRun(FRESH, ReleasedFirst()[..n]) && After(FRESH, ReleasedFirst()[..n]) == before
    requires Enabled(before, ReleasedFirst()[n]) && Next(before, ReleasedFirst()[n]) == after
    ensures IsRun(FRESH, ReleasedFirst()[..n + 1]) && After(FRESH, ReleasedFirst()[..n + 1]) == after
  {
    OneMore(FRESH, ReleasedFirst()[..n], ReleasedFirst()[n]);
    assert ReleasedFirst()[..n] + [ReleasedFirst()[n]] == ReleasedFirst()[..n + 1];
  }

  lemma UpToRelease()
    ensures IsRun(FRESH, ReleasedFirst()[..5])
    ensures After(FRESH, ReleasedFirst()[..5])
            == State(10, map[0 := HELD], map[4 := Rejected], map[], map[1 := Waiting(4, {0})], [])
  {
    assert ReleasedFirst()[..0] == [];
    var s := FRESH.(mails := map[0 := HELD]);
    Step(0, FRESH, s);
    Step(1, s, s.(withdrawals := map[1 := Opened(4, Rejected)]));
    assert 0 in s.mails && s.mails[0].status == Scheduled;
    Step(2, s.(withdrawals := map[1 := Opened(4, Rejected)]), s.(withdrawals := map[1 := Moving(4, true)]));
    assert HeldOf(s.mails, 4) == {0};
    Step(3, s.(withdrawals := map[1 := Moving(4, true)]), s.(withdrawals := map[1 := Waiting(4, {0})]));
    Step(4, s.(withdrawals := map[1 := Waiting(4, {0})]), s.(withdrawals := map[1 := Waiting(4, {0})], now := 10));
  }

  lemma DispatchFails(s: State, t: State)
    requires s == State(10, map[0 := HELD], map[4 := Rejected], map[2 := Worker(0, true)], map[1 := Waiting(4, {0})], [])
    requires t == s.(mails := map[0 := RETRYING], workers := map[], log := [Dispatch(0, 10, false)])
    ensures Enabled(s, Finish(2, Broken("timeout"))) && Next(s, Finish(2, Broken("timeout"))) == t
  {
    assert s.workers - {2} == map[];
    assert Concluded(HELD.(status := Queued), Broken("timeout"), 10) == RETRYING;
  }

  lemma UpToFailure()
    ensures IsRun(FRESH, ReleasedFirst())
    ensures After(FRESH, ReleasedFirst())
            == State(10, map[0 := RETRYING], map[4 := Rejected], map[], map[1 := Waiting(4, {0})], [Dispatch(0, 10, false)])
  {
    UpToRelease();
    hide IsRun, After;
    var s := State(10, map[0 := HELD], map[4 := Rejected], map[], map[1 := Waiting(4, {0})], []);
    var s1, s2 := s.(workers := map[2 := Worker(0, false)]), s.(workers := map[2 := Worker(0, true)]);
    Step(5, s, s1);
    Step(6, s1, s2);
    var t := s.(mails := map[0 := RETRYING], log := [Dispatch(0, 10, false)]);
    DispatchFails(s2, t);
    Step(7, s2, t);
    assert ReleasedFirst()[..8] == ReleasedFirst();
  }

  lemma SettleStillWins(s: State)
    requires s == State(10, map[0 := RETRYING], map[4 := Rejected], map[], map[1 := Waiting(4, {0})], [Dispatch(0, 10, false)])
    ensures Enabled(s, Settle(1)) && Next(s, Settle(1)).stages == map[4 := Withdrawn]
    ensures Next(s, Settle(1)).mails == map[0 := RETRYING.(status := Cancelled)]
  {
    assert StillHeld(s.mails, {0}) == {0};
  }

  /** A release alone does not decide the race: the worker releases the mail first, its dispatch fails, and the
      withdrawal behind it still goes through and cancels the waiting retry. */
  lemma ReleasedFirstCanStillLose()
    ensures IsRun(FRESH, ReleasedFirst())
    ensures var s := After(FRESH, ReleasedFirst());
            && s.log == [Dispatch(0, 10, false)] && Enabled(s, Settle(1))
            && Next(s, Settle(1)).stages == map[4 := Withdrawn]
            && Next(s, Settle(1)).mails == map[0 := RETRYING.(status := Cancelled)]
  {
    UpToFailure();
    SettleStillWins(After(FRESH, ReleasedFirst()));
    hide ReleasedFirst, IsRun, After, Next, Enabled;
  }
}
