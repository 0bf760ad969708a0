/**
 The email outbox: services/outbox.py, the delivery job of worker.py, the cancels of
 services/scheduled_emails.py and the withdrawal of api/public.py, over one shared table.

 A delivery job may fire for any row at any time and any number of times, which covers duplicated, late and
 swept jobs. A worker holds the row's lock from its select to its commit; the application's stage is read
 without a lock in between. Runs are crash-free: a dispatch and the commit that records it are one step.
 */
module Outbox {
  import opened Basics
  import opened Pipeline

  const MAX_ATTEMPTS := 3

  type MailId = nat
  type WorkerId = nat
  type RequestId = nat

  datatype EmailStatus = Scheduled | Queued | Sent | Failed | Suppressed | Bounced | Complained | Cancelled

  datatype Mail = Mail(app: Option<AppId>, rejection: bool, createdAt: Instant, sendAfter: Option<Instant>,
                       status: EmailStatus, attempts: nat, sentAt: Option<Instant>, lastError: Option<string>)

  // How the second half of a delivery goes: no provider, a suppressed address, or a dispatch that works or raises.
  datatype Outcome = Unconfigured | Skip(reason: string) | Delivered | Broken(error: string)

  // One call of the transport.
  datatype Dispatch = Dispatch(id: MailId, at: Instant, ok: bool)

  // A delivery job that holds its row, before and after its look at the stage.
  datatype Worker = Worker(id: MailId, checked: bool)

  // A withdrawal in flight: the stage it loaded, then what it found and waits to lock.
  datatype Withdrawal =
    | Opened(app: AppId, loaded: Stage)
    | Moving(app: AppId, held: bool)
    | Waiting(app: AppId, found: set<MailId>)

  datatype State = State(now: Instant, mails: map<MailId, Mail>, stages: map<AppId, Stage>,
                         workers: map<WorkerId, Worker>, withdrawals: map<RequestId, Withdrawal>,
                         log: seq<Dispatch>)

  datatype Event =
    | Tick(time: Instant)
    | Queue(id: MailId, about: Option<AppId>, rejection: bool, sendAfter: Option<Instant>)
    | Move(app: AppId, stage: Stage)
    | Grab(w: WorkerId, id: MailId)
    | CheckStage(w: WorkerId)
    | Finish(w: WorkerId, outcome: Outcome)
    | StaffCancel(id: MailId)
    | CancelHeld(app: AppId, found: set<MailId>)
    | ProviderEvent(id: MailId, complaint: bool)
    | Open(r: RequestId, app: AppId)
    | Look(r: RequestId)
    | Collect(r: RequestId)
    | Settle(r: RequestId)

  // ---------------------------------------------------------------- one row

  predicate Live(m: Mail) { m.status == Scheduled || m.status == Queued }

  predicate Due(m: Mail, now: Instant) { m.sendAfter.Some? && m.sendAfter.value <= now }

  // A delivery touches only rows still queued, or scheduled and due.
  predicate Deliverable(m: Mail, now: Instant) {
    m.status == Queued || (m.status == Scheduled && Due(m, now))
  }

  // A rejection that was held back: its application must still be rejected.
  predicate NeedsStage(m: Mail) { m.rejection && m.sendAfter.Some? && m.app.Some? }

  // What a cancel for the application takes: scheduled, or released and waiting for a retry.
  predicate Held(m: Mail) {
    m.rejection && (m.status == Scheduled || (m.status == Queued && m.sendAfter.Some?))
  }

  predicate Dispatches(outcome: Outcome) { outcome.Delivered? || outcome.Broken? }

  // The row after a delivery that went through to its end.
  function Concluded(m: Mail, outcome: Outcome, now: Instant): Mail {
    match outcome
    case Unconfigured => m.(status := Failed, lastError := Some("Email not configured"))
    case Skip(reason) => m.(status := Suppressed, lastError := Some(reason))
    case Delivered => m.(attempts := m.attempts + 1, status := Sent, sentAt := Some(now), lastError := None)
    case Broken(error) =>
      m.(attempts := m.attempts + 1, lastError := Some(error),
         status := if m.attempts + 1 >= MAX_ATTEMPTS then Failed else Queued)
  }

  function CancelAll(mails: map<MailId, Mail>, ids: set<MailId>): map<MailId, Mail> {
    map id | id in mails :: if id in ids then mails[id].(status := Cancelled) else mails[id]
  }

  function HeldOf(mails: map<MailId, Mail>, app: AppId): set<MailId> {
    set id | id in mails && mails[id].app == Some(app) && Held(mails[id])
  }

  function StillHeld(mails: map<MailId, Mail>, found: set<MailId>): set<MailId> {
    set id | id in found && id in mails && Held(mails[id])
  }

  predicate RowLocked(s: State, id: MailId) {
    exists w | w in s.workers :: s.workers[w].id == id
  }

  // ---------------------------------------------------------------- the steps

  predicate Enabled(s: State, e: Event) {
    match e
    case Tick(time) => s.now <= time
    case Queue(id, _, _, _) => id !in s.mails
    case Move(app, _) => true
    case Grab(w, id) => w !in s.workers && id in s.mails && !RowLocked(s, id)
    case CheckStage(w) => w in s.workers && s.workers[w].id in s.mails && !s.workers[w].checked
    case Finish(w, _) => w in s.workers && s.workers[w].id in s.mails && s.workers[w].checked
    case StaffCancel(id) => id in s.mails && !RowLocked(s, id)
    case CancelHeld(app, found) => found <= HeldOf(s.mails, app) && forall id | id in found :: !RowLocked(s, id)
    case ProviderEvent(id, _) => id in s.mails && !RowLocked(s, id)
    case Open(r, app) => r !in s.withdrawals && app in s.stages
    case Look(r) => r in s.withdrawals && s.withdrawals[r].Opened?
    case Collect(r) => r in s.withdrawals && s.withdrawals[r].Moving? && s.withdrawals[r].held
    case Settle(r) =>
      r in s.withdrawals
      && match s.withdrawals[r]
         case Opened(_, _) => false
         case Moving(_, held) => !held
         case Waiting(_, found) => forall id | id in found :: !RowLocked(s, id)
  }

  // The stage a worker's guard reads.
  function StageOf(s: State, m: Mail): Option<Stage> {
    if m.app.Some? && m.app.value in s.stages then Some(s.stages[m.app.value]) else None
  }

  function Next(s: State, e: Event): State
    requires Enabled(s, e)
  {
    match e
    case Tick(time) => s.(now := time)
    case Queue(id, app, rejection, sendAfter) =>
      s.(mails := s.mails[id := Mail(app, rejection, s.now, sendAfter,
                                     if sendAfter.Some? then Scheduled else Queued, 0, None, None)])
    case Move(app, stage) => s.(stages := s.stages[app := stage])
    case Grab(w, id) =>
      if Deliverable(s.mails[id], s.now) then s.(workers := s.workers[w := Worker(id, false)]) else s
    case CheckStage(w) =>
      var id := s.workers[w].id;
      if NeedsStage(s.mails[id]) && StageOf(s, s.mails[id]) != Some(Rejected)
      then s.(mails := s.mails[id := s.mails[id].(status := Cancelled)], workers := s.workers - {w})
      else s.(workers := s.workers[w := Worker(id, true)])
    case Finish(w, outcome) =>
      var id := s.workers[w].id;
      s.(mails := s.mails[id := Concluded(s.mails[id].(status := Queued), outcome, s.now)],
         workers := s.workers - {w},
         log := if Dispatches(outcome) then s.log + [Dispatch(id, s.now, outcome.Delivered?)] else s.log)
    case StaffCancel(id) =>
      if s.mails[id].status == Scheduled
      then s.(mails := s.mails[id := s.mails[id].(status := Cancelled)]) else s
    case CancelHeld(app, found) => s.(mails := CancelAll(s.mails, found))
    case ProviderEvent(id, complaint) =>
      s.(mails := s.mails[id := s.mails[id].(status := if complaint then Complained else Bounced)])
    case Open(r, app) => s.(withdrawals := s.withdrawals[r := Opened(app, s.stages[app])])
    case Look(r) =>
      var q := s.withdrawals[r];
      var held := q.loaded == Rejected
                  && exists id | id in s.mails :: s.mails[id].app == Some(q.app) && s.mails[id].rejection
                                                  && s.mails[id].status == Scheduled;
      if q.loaded == Hired || (q.loaded == Rejected && !held) || q.loaded == Withdrawn
      then s.(withdrawals := s.withdrawals - {r})
      else s.(withdrawals := s.withdrawals[r := Moving(q.app, held)])
    case Collect(r) =>
      var q := s.withdrawals[r];
      s.(withdrawals := s.withdrawals[r := Waiting(q.app, HeldOf(s.mails, q.app))])
    case Settle(r) =>
      var q := s.withdrawals[r];
      var t := s.(withdrawals := s.withdrawals - {r});
      match q
      case Opened(_, _) => t
      case Moving(app, _) => t.(stages := s.stages[app := Withdrawn])
      case Waiting(app, found) =>
        var cancelled := StillHeld(s.mails, found);
        if cancelled == {} then t
        else t.(mails := CancelAll(s.mails, cancelled), stages := s.stages[app := Withdrawn])
  }

  ghost predicate IsRun(s: State, events: seq<Event>)
    decreases |events|
  {
    events == [] || (Enabled(s, events[0]) && IsRun(Next(s, events[0]), events[1..]))
  }

  ghost function After(s: State, events: seq<Event>): State
    requires IsRun(s, events)
    decreases |events|
  {
    if events == [] then s else After(Next(s, events[0]), events[1..])
  }

  // A database with no mail yet.
  ghost predicate IsInitial(s: State) {
    s.mails == map[] && s.workers == map[] && s.withdrawals == map[] && s.log == []
  }

  // ---------------------------------------------------------------- the invariant

  // The dispatches of one mail, in order.
  function About(log: seq<Dispatch>, id: MailId): seq<Dispatch> {
    if log == [] then []
    else
      var rest := About(log[..|log| - 1], id);
      if log[|log| - 1].id == id then rest + [log[|log| - 1]] else rest
  }

  // A row and its history of dispatches.
  predicate MailOk(m: Mail, a: seq<Dispatch>, now: Instant) {
    && m.attempts == |a| <= MAX_ATTEMPTS
    && (forall k | 0 <= k < |a| :: a[k].at <= now && (m.sendAfter.Some? ==> m.sendAfter.value <= a[k].at))
    && (forall k | 0 <= k < |a| :: a[k].ok ==> k == |a| - 1 && m.status in {Sent, Bounced, Complained})
    && (m.status == Sent ==> |a| > 0 && a[|a| - 1].ok && m.sentAt == Some(a[|a| - 1].at))
    && (Live(m) ==> |a| < MAX_ATTEMPTS)
    && (m.status == Scheduled ==> |a| == 0 && m.sendAfter.Some?)
    && (m.status == Queued && m.sendAfter.Some? ==> Due(m, now))
  }

  predicate WorkerOk(s: State, w: WorkerId) {
    w in s.workers ==>
      && s.workers[w].id in s.mails && Deliverable(s.mails[s.workers[w].id], s.now)
      && forall v | v in s.workers && v != w :: s.workers[v].id != s.workers[w].id
  }

  ghost predicate Inv(s: State) {
    && (forall id | id in s.mails :: MailOk(s.mails[id], About(s.log, id), s.now))
    && (forall k | 0 <= k < |s.log| :: s.log[k].id in s.mails)
    && (forall w | w in s.workers :: WorkerOk(s, w))
  }

  // A row still in play was not delivered, and has an attempt left.
  lemma LiveHasRoom(m: Mail, a: seq<Dispatch>, now: Instant)
    requires MailOk(m, a, now) && Live(m)
    ensures m.attempts < MAX_ATTEMPTS && forall k | 0 <= k < |a| :: !a[k].ok
  {
  }

  lemma {:induction false} NothingAbout(log: seq<Dispatch>, id: MailId)
    requires forall k | 0 <= k < |log| :: log[k].id != id
    ensures About(log, id) == []
    decreases |log|
  {
    if log != [] { NothingAbout(log[..|log| - 1], id); }
  }

  lemma AppendAbout(log: seq<Dispatch>, d: Dispatch, id: MailId)
    ensures About(log + [d], id) == if d.id == id then About(log, id) + [d] else About(log, id)
  {
    assert (log + [d])[..|log|] == log;
  }

  // Steps that leave every row, worker and dispatch alone.
  lemma FrameKeepsInv(s: State, t: State)
    requires Inv(s) && s.now <= t.now && t.mails == s.mails && t.workers == s.workers && t.log == s.log
    ensures Inv(t)
  {
    forall id | id in t.mails ensures MailOk(t.mails[id], About(t.log, id), t.now) {
      assert MailOk(s.mails[id], About(s.log, id), s.now);
    }
    forall w | w in t.workers ensures WorkerOk(t, w) { assert WorkerOk(s, w); }
  }

  // Rows nobody holds are cancelled or annotated; every other row stays.
  lemma RowsKeepInv(s: State, t: State, ids: set<MailId>)
    requires Inv(s) && t.now == s.now && t.workers == s.workers && t.log == s.log && t.mails.Keys == s.mails.Keys
    requires ids <= s.mails.Keys && forall id | id in ids :: !RowLocked(s, id)
    requires forall id | id in s.mails :: t.mails[id] == s.mails[id] || (id in ids && Retired(s.mails[id], t.mails[id]))
    ensures Inv(t)
  {
    forall id | id in t.mails ensures MailOk(t.mails[id], About(t.log, id), t.now) {
      assert MailOk(s.mails[id], About(s.log, id), s.now);
    }
    forall w | w in t.workers ensures WorkerOk(t, w) {
      assert WorkerOk(s, w);
      if s.workers[w].id in ids { assert RowLocked(s, s.workers[w].id); }
    }
  }

  // A row taken out of delivery: cancelled while live, or marked by the provider.
  predicate Retired(m: Mail, n: Mail) {
    n == m.(status := n.status) && (n.status in {Bounced, Complained} || (n.status == Cancelled && Live(m)))
  }

  lemma QueueKeepsInv(s: State, e: Event)
    requires e.Queue? && Enabled(s, e) && Inv(s)
    ensures Inv(Next(s, e))
  {
    var t := Next(s, e);
    NothingAbout(s.log, e.id);
    forall id | id in t.mails ensures MailOk(t.mails[id], About(t.log, id), t.now) {
      if id != e.id { assert MailOk(s.mails[id], About(s.log, id), s.now); }
    }
    forall w | w in t.workers ensures WorkerOk(t, w) { assert WorkerOk(s, w); }
  }

  lemma GrabKeepsInv(s: State, e: Event)
    requires e.Grab? && Enabled(s, e) && Inv(s)
    ensures Inv(Next(s, e))
  {
    var t := Next(s, e);
    forall w | w in t.workers ensures WorkerOk(t, w) {
      if w in s.workers { assert WorkerOk(s, w); assert s.workers[w].id != e.id; }
    }
  }

  lemma CheckStageKeepsInv(s: State, e: Event)
    requires e.CheckStage? && Enabled(s, e) && Inv(s)
    ensures Inv(Next(s, e))
  {
    hide About, RowLocked, MailOk;
    var t, id := Next(s, e), s.workers[e.w].id;
    assert WorkerOk(s, e.w);
    forall i | i in t.mails ensures MailOk(t.mails[i], About(t.log, i), t.now) {
      assert MailOk(s.mails[i], About(s.log, i), s.now);
      CancelledIsOk(s.mails[i], About(s.log, i), s.now);
    }
    forall w | w in t.workers ensures WorkerOk(t, w) { assert WorkerOk(s, w); }
  }

  lemma CancelledIsOk(m: Mail, a: seq<Dispatch>, now: Instant)
    requires MailOk(m, a, now)
    ensures Live(m) ==> MailOk(m.(status := Cancelled), a, now)
  {
  }

  // The row a worker writes fits its history with the new dispatch, if there was one.
  lemma ConcludedIsOk(m: Mail, a: seq<Dispatch>, id: MailId, outcome: Outcome, now: Instant)
    requires MailOk(m, a, now) && Deliverable(m, now)
    ensures MailOk(Concluded(m.(status := Queued), outcome, now),
                   if Dispatches(outcome) then a + [Dispatch(id, now, outcome.Delivered?)] else a, now)
  {
  }

  lemma FinishKeepsInv(s: State, e: Event)
    requires e.Finish? && Enabled(s, e) && Inv(s)
    ensures Inv(Next(s, e))
  {
    var t, id := Next(s, e), s.workers[e.w].id;
    var d := Dispatch(id, s.now, e.outcome.Delivered?);
    assert WorkerOk(s, e.w);
    forall i | i in t.mails ensures MailOk(t.mails[i], About(t.log, i), t.now) {
      assert MailOk(s.mails[i], About(s.log, i), s.now);
      AppendAbout(s.log, d, i);
      if i == id { ConcludedIsOk(s.mails[i], About(s.log, i), id, e.outcome, s.now); }
    }
    forall w | w in t.workers ensures WorkerOk(t, w) { assert WorkerOk(s, w); }
  }

  lemma CancelKeepsInv(s: State, e: Event)
    requires e.StaffCancel? || e.ProviderEvent? || e.CancelHeld?
    requires Enabled(s, e) && Inv(s)
    ensures Inv(Next(s, e))
  {
    hide Inv, MailOk, About, WorkerOk;
    RowsKeepInv(s, Next(s, e), if e.CancelHeld? then e.found else {e.id});
  }

  lemma SettleKeepsInv(s: State, e: Event)
    requires e.Settle? && Enabled(s, e) && Inv(s)
    ensures Inv(Next(s, e))
  {
    if s.withdrawals[e.r].Waiting? {
      RowsKeepInv(s, Next(s, e), StillHeld(s.mails, s.withdrawals[e.r].found));
    } else {
      FrameKeepsInv(s, Next(s, e));
    }
  }

  lemma StepKeepsInv(s: State, e: Event)
    requires Enabled(s, e) && Inv(s)
    ensures Inv(Next(s, e))
  {
    match e
    case Queue(_, _, _, _) => QueueKeepsInv(s, e);
    case Grab(_, _) => GrabKeepsInv(s, e);
    case CheckStage(_) => CheckStageKeepsInv(s, e);
    case Finish(_, _) => FinishKeepsInv(s, e);
    case StaffCancel(_) => CancelKeepsInv(s, e);
    case ProviderEvent(_, _) => CancelKeepsInv(s, e);
    case CancelHeld(_, _) => CancelKeepsInv(s, e);
    case Settle(_) => SettleKeepsInv(s, e);
    case _ => FrameKeepsInv(s, Next(s, e));
  }

  lemma {:induction false} RunKeepsInv(s: State, events: seq<Event>)
    requires Inv(s) && IsRun(s, events)
    ensures Inv(After(s, events))
    decreases |events|
  {
    if events != [] {
      StepKeepsInv(s, events[0]);
      RunKeepsInv(Next(s, events[0]), events[1..]);
    }
  }

  /** In every run, with any number of duplicate jobs, sweeps and cancels, a mail is dispatched successfully at
      most once and never again afterwards, never before its send time, never more than three times in all, and
      the stored attempt count is the number of dispatches; a cancelled row was never delivered. */
  lemma DeliveredAtMostOnce(s: State, events: seq<Event>, id: MailId)
    requires IsInitial(s) && IsRun(s, events) && id in After(s, events).mails
    ensures var t := After(s, events);
            var m, a := t.mails[id], About(t.log, id);
            && m.attempts == |a| <= 3
            && (forall k | 0 <= k < |a| :: a[k].ok ==> k == |a| - 1)
            && (forall k | 0 <= k < |a| && m.sendAfter.Some? :: m.sendAfter.value <= a[k].at)
            && (m.status == Sent ==> |a| > 0 && a[|a| - 1].ok && m.sentAt == Some(a[|a| - 1].at))
            && (m.status in {Scheduled, Queued, Cancelled, Failed, Suppressed} ==> forall k | 0 <= k < |a| :: !a[k].ok)
  {
    RunKeepsInv(s, events);
  }

  // ---------------------------------------------------------------- what is over stays over

  lemma StepKeepsOver(s: State, e: Event, id: MailId)
    requires Inv(s) && Enabled(s, e) && id in s.mails && !Live(s.mails[id])
    ensures var t := Next(s, e); id in t.mails && !Live(t.mails[id]) && About(t.log, id) == About(s.log, id)
  {
    hide MailOk, About;
    if e.Finish? {
      hide RowLocked;
      assert WorkerOk(s, e.w) && s.workers[e.w].id != id;
      AppendAbout(s.log, Dispatch(s.workers[e.w].id, s.now, e.outcome.Delivered?), id);
    } else if e.CheckStage? {
      assert WorkerOk(s, e.w) && s.workers[e.w].id != id;
    } else {
      hide Inv, RowLocked, WorkerOk;
    }
  }

  /** A row that is sent, failed, suppressed, cancelled or bounced is never dispatched again in any run. */
  lemma {:induction false} OverIsOver(s: State, events: seq<Event>, id: MailId)
    requires Inv(s) && IsRun(s, events) && id in s.mails && !Live(s.mails[id])
    ensures var t := After(s, events);
            id in t.mails && !Live(t.mails[id]) && About(t.log, id) == About(s.log, id)
    decreases |events|
  {
    if events != [] {
      StepKeepsOver(s, events[0], id);
      StepKeepsInv(s, events[0]);
      OverIsOver(Next(s, events[0]), events[1..], id);
    }
  }

  // ---------------------------------------------------------------- un-reject

  // No job has already passed its stage check for this mail.
  predicate NobodyChecked(s: State, id: MailId) {
    forall w | w in s.workers :: s.workers[w].id == id ==> !s.workers[w].checked
  }

  predicate NotRejected(s: State, app: AppId) {
    app !in s.stages || s.stages[app] != Rejected
  }

  lemma StepKeepsUnrejected(s: State, e: Event, id: MailId, app: AppId)
    requires Enabled(s, e) && id in s.mails && NeedsStage(s.mails[id]) && s.mails[id].app == Some(app)
    requires NotRejected(s, app) && NobodyChecked(s, id) && e != Move(app, Rejected)
    ensures var t := Next(s, e);
            && id in t.mails && NeedsStage(t.mails[id]) && t.mails[id].app == Some(app)
            && NotRejected(t, app) && NobodyChecked(t, id) && About(t.log, id) == About(s.log, id)
  {
    hide About, RowLocked, HeldOf;
    if e.Finish? {
      AppendAbout(s.log, Dispatch(s.workers[e.w].id, s.now, e.outcome.Delivered?), id);
    }
  }

  /** Once the un-reject is committed, no delivery whose stage check comes after it mails the candidate: while the
      application is not rejected again, a held rejection is never dispatched. */
  lemma {:induction false} UnrejectedIsNeverMailed(s: State, events: seq<Event>, id: MailId, app: AppId)
    requires IsRun(s, events) && id in s.mails && NeedsStage(s.mails[id]) && s.mails[id].app == Some(app)
    requires NotRejected(s, app) && NobodyChecked(s, id)
    requires forall k | 0 <= k < |events| :: events[k] != Move(app, Rejected)
    ensures About(After(s, events).log, id) == About(s.log, id)
    decreases |events|
  {
    if events != [] {
      StepKeepsUnrejected(s, events[0], id, app);
      UnrejectedIsNeverMailed(Next(s, events[0]), events[1..], id, app);
    }
  }

  // ---------------------------------------------------------------- withdrawal

  /** The withdrawal from a held rejection, exactly: it goes through if and only if, when it has its locks, one of
      the mails it found is still held. Then the stage is withdrawn and in every continuation none of those mails
      is ever dispatched again, nor was it ever delivered. Otherwise it leaves the database as it was. */
  lemma WithdrawalWinsOrLeavesNoTrace(init: State, before: seq<Event>, r: RequestId, later: seq<Event>)
    requires IsInitial(init) && IsRun(init, before)
    requires var s := After(init, before);
             && Enabled(s, Settle(r)) && s.withdrawals[r].Waiting? && IsRun(Next(s, Settle(r)), later)
    ensures var s := After(init, before);
            var q, t, u := s.withdrawals[r], Next(s, Settle(r)), After(Next(s, Settle(r)), later);
            var won := exists id :: id in q.found && id in s.mails && Held(s.mails[id]);
            && (won ==> q.app in t.stages && t.stages[q.app] == Withdrawn
                        && forall id | id in q.found && id in s.mails && Held(s.mails[id]) ::
                             About(u.log, id) == About(s.log, id)
                             && forall k | 0 <= k < |About(u.log, id)| :: !About(u.log, id)[k].ok)
            && (!won ==> t.stages == s.stages && t.mails == s.mails && t.log == s.log)
  {
    var s := After(init, before);
    var q, t := s.withdrawals[r], Next(s, Settle(r));
    RunKeepsInv(init, before);
    StepKeepsInv(s, Settle(r));
    SettleExactly(s, r);
    forall id | id in q.found && id in s.mails && Held(s.mails[id])
      ensures About(After(t, later).log, id) == About(s.log, id)
              && forall k | 0 <= k < |About(s.log, id)| :: !About(s.log, id)[k].ok
    {
      LiveHasRoom(s.mails[id], About(s.log, id), s.now);
      OverIsOver(t, later, id);
    }
    hide Inv, IsRun, After, Next, Enabled, About, Held;
  }

  // The last step of the withdrawal: what it found still held is cancelled, or nothing happens.
  lemma SettleExactly(s: State, r: RequestId)
    requires Enabled(s, Settle(r)) && s.withdrawals[r].Waiting?
    ensures var q, t := s.withdrawals[r], Next(s, Settle(r));
            var won := exists id :: id in q.found && id in s.mails && Held(s.mails[id]);
            && t.log == s.log
            && (won ==> q.app in t.stages && t.stages[q.app] == Withdrawn)
            && (forall id | id in q.found && id in s.mails && Held(s.mails[id]) :: id in t.mails && !Live(t.mails[id]))
            && (!won ==> t.stages == s.stages && t.mails == s.mails)
  {
    hide RowLocked;
    var q := s.withdrawals[r];
    if id :| id in q.found && id in s.mails && Held(s.mails[id]) {
      assert id in StillHeld(s.mails, q.found);
    } else {
      assert StillHeld(s.mails, q.found) == {};
    }
  }

  /** If the worker delivered the only held mail first, the withdrawal is rolled back and the stage stays. */
  lemma DeliveredFirstMeansNoWithdrawal(init: State, before: seq<Event>, r: RequestId, id: MailId)
    requires IsInitial(init) && IsRun(init, before)
    requires var s := After(init, before);
             && Enabled(s, Settle(r)) && s.withdrawals[r].Waiting? && s.withdrawals[r].found == {id} && id in s.mails
             && exists k :: 0 <= k < |About(s.log, id)| && About(s.log, id)[k].ok
    ensures var s := After(init, before);
            Next(s, Settle(r)) == s.(withdrawals := s.withdrawals - {r})
  {
    var s := After(init, before);
    RunKeepsInv(init, before);
    assert MailOk(s.mails[id], About(s.log, id), s.now);
    assert StillHeld(s.mails, {id}) == {};
  }
}
