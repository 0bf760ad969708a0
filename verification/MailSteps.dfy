/**
 What each step of the outbox does to its row, in the words of worker.py, services/outbox.py and
 services/scheduled_emails.py: statuses, errors, attempts and delays written out.
 */
module MailSteps {
  import opened Basics
  import opened Pipeline
  import opened Outbox

  // ---------------------------------------------------------------- a delivery

  // n is the row m after a delivery came to its end: no provider, a suppressed address, sent, or an error that leaves it
  // queued twice and parks it the third time. What the mail is about, its kind and its times stay.
  predicate ConcludesAs(m: Mail, n: Mail, outcome: Outcome, now: Instant) {
    && n.app == m.app && n.rejection == m.rejection && n.createdAt == m.createdAt && n.sendAfter == m.sendAfter
    && match outcome
       case Unconfigured =>
         n.status == Failed && n.lastError == Some("Email not configured") && n.attempts == m.attempts && n.sentAt == m.sentAt
       case Skip(reason) =>
         n.status == Suppressed && n.lastError == Some(reason) && n.attempts == m.attempts && n.sentAt == m.sentAt
       case Delivered =>
         n.status == Sent && n.lastError == None && n.attempts == m.attempts + 1 && n.sentAt == Some(now)
       case Broken(error) =>
         && n.lastError == Some(error) && n.attempts == m.attempts + 1 && n.sentAt == m.sentAt
         && (n.attempts <= 2 ==> n.status == Queued) && (n.attempts >= 3 ==> n.status == Failed)
  }

  // Every other row, and what is not a row, is as before.
  predicate ChangesRow(s: State, t: State, id: MailId) {
    && t.now == s.now && t.stages == s.stages && t.withdrawals == s.withdrawals && t.mails.Keys == s.mails.Keys
    && forall other | other in s.mails && other != id :: t.mails[other] == s.mails[other]
  }

  /** The end of a delivery: one row concludes as its outcome says, and the transport was called exactly for a mail that
      was delivered or raised. */
  lemma FinishConcludes(s: State, w: WorkerId, outcome: Outcome)
    requires Enabled(s, Finish(w, outcome))
    ensures var id, t := s.workers[w].id, Next(s, Finish(w, outcome));
            && ChangesRow(s, t, id) && ConcludesAs(s.mails[id], t.mails[id], outcome, s.now)
            && t.workers == s.workers - {w}
            && t.log == s.log + (match outcome
                                 case Delivered => [Dispatch(id, s.now, true)]
                                 case Broken(_) => [Dispatch(id, s.now, false)]
                                 case _ => [])
  {
    assert s.log + [] == s.log;
  }

  /** The look at the stage: a rejection that was held back is cancelled unless its application is rejected; any other
      mail, and any job, goes on. */
  lemma CheckStageGuards(s: State, w: WorkerId)
    requires Enabled(s, CheckStage(w))
    ensures var id, t := s.workers[w].id, Next(s, CheckStage(w));
            var m := s.mails[id];
            && ChangesRow(s, t, id) && t.log == s.log
            && if m.rejection && m.sendAfter.Some? && m.app.Some?
                  && !(m.app.value in s.stages && s.stages[m.app.value] == Rejected)
               then t.mails[id] == m.(status := Cancelled) && t.workers == s.workers - {w}
               else t.mails == s.mails && t.workers == s.workers[w := Worker(id, true)]
  {
  }

  /** A job takes up a row that is queued, or scheduled and due, and no other; it changes nothing yet. A new row is
      scheduled exactly with a send time, and has no attempt behind it. */
  lemma GrabAndQueue(s: State, w: WorkerId, id: MailId, app: Option<AppId>, rejection: bool, sendAfter: Option<Instant>)
    ensures Enabled(s, Grab(w, id)) ==>
              var m := s.mails[id];
              Next(s, Grab(w, id)) ==
                if m.status == Queued || (m.status == Scheduled && m.sendAfter.Some? && m.sendAfter.value <= s.now)
                then s.(workers := s.workers[w := Worker(id, false)]) else s
    ensures Enabled(s, Queue(id, app, rejection, sendAfter)) ==>
              Next(s, Queue(id, app, rejection, sendAfter))
              == s.(mails := s.mails[id := Mail(app, rejection, s.now, sendAfter, if sendAfter == None then Queued else Scheduled,
                                                0, None, None)])
  {
  }

  /** What the mail provider reports later marks the row and nothing else. */
  lemma ProviderMarks(s: State, id: MailId, complaint: bool)
    requires Enabled(s, ProviderEvent(id, complaint))
    ensures var t := Next(s, ProviderEvent(id, complaint));
            && ChangesRow(s, t, id) && t.workers == s.workers && t.log == s.log
            && (complaint ==> t.mails[id] == s.mails[id].(status := Complained))
            && (!complaint ==> t.mails[id] == s.mails[id].(status := Bounced))
  {
  }

  // ---------------------------------------------------------------- the cancels

  /** A staff cancel takes a scheduled mail out of play for good, and leaves every other mail, and this one in any other
      status, alone. */
  lemma StaffCancelCancels(s: State, id: MailId, later: seq<Event>)
    requires Inv(s) && Enabled(s, StaffCancel(id)) && IsRun(Next(s, StaffCancel(id)), later)
    ensures var t, u := Next(s, StaffCancel(id)), After(Next(s, StaffCancel(id)), later);
            if s.mails[id].status == Scheduled
            then && t == s.(mails := s.mails[id := s.mails[id].(status := Cancelled)])
                 && About(u.log, id) == About(s.log, id) && About(s.log, id) == []
            else t == s
  {
    var t := Next(s, StaffCancel(id));
    if s.mails[id].status == Scheduled {
      StepKeepsInv(s, StaffCancel(id));
      assert MailOk(s.mails[id], About(s.log, id), s.now);
      OverIsOver(t, later, id);
    }
  }

  /** The cancel behind an un-reject takes the held rejections it locked out of play for good, scheduled or waiting for a
      retry, and leaves every other mail alone. */
  lemma UnrejectCancels(s: State, app: AppId, found: set<MailId>, later: seq<Event>, id: MailId)
    requires Inv(s) && Enabled(s, CancelHeld(app, found)) && IsRun(Next(s, CancelHeld(app, found)), later) && id in s.mails
    ensures var t, u := Next(s, CancelHeld(app, found)), After(Next(s, CancelHeld(app, found)), later);
            && t == s.(mails := t.mails) && t.mails.Keys == s.mails.Keys
            && if id in found
               then && s.mails[id].app == Some(app) && s.mails[id].rejection
                    && (s.mails[id].status == Scheduled || (s.mails[id].status == Queued && s.mails[id].sendAfter.Some?))
                    && t.mails[id] == s.mails[id].(status := Cancelled) && About(u.log, id) == About(s.log, id)
               else t.mails[id] == s.mails[id]
  {
    var t := Next(s, CancelHeld(app, found));
    if id in found {
      StepKeepsInv(s, CancelHeld(app, found));
      OverIsOver(t, later, id);
    }
  }
}
