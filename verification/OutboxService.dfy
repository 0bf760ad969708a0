/**
 The code that writes the outbox, cut where other transactions can come in: queue_email, the three stretches
 of deliver_email, the cancels and the withdrawal. Each method is one event of module Outbox.
 */
module OutboxService {
  import opened Basics
  import opened Pipeline
  import opened Outbox
  import opened MailSteps
  import opened Withdrawals

  // After the first and after the second failed attempt.
  const RETRY_DELAYS: seq<Instant> := [60 * SECOND, 300 * SECOND]

  class OutboxDatabase {
    var now: Instant
    var mails: map<MailId, Mail>
    var stages: map<AppId, Stage>
    var workers: map<WorkerId, Worker>
    var withdrawals: map<RequestId, Withdrawal>
    var log: seq<Dispatch>

    ghost function Value(): State
      reads this
    {
      State(now, mails, stages, workers, withdrawals, log)
    }

    method QueueEmail(id: MailId, about: Option<AppId>, rejection: bool, sendAfter: Option<Instant>)
      requires Enabled(Value(), Queue(id, about, rejection, sendAfter))
      modifies this
      ensures Value() == Next(old(Value()), Queue(id, about, rejection, sendAfter))
    {
      var row := Mail(about, rejection, now, None, Queued, 0, None, None);
      if sendAfter.Some? {
        row := row.(status := Scheduled, sendAfter := sendAfter);
      }
      mails := mails[id := row];
    }

    // The select FOR UPDATE and the release; true when the job goes on and keeps the row.
    method SelectForUpdate(w: WorkerId, id: MailId) returns (proceed: bool)
      requires Enabled(Value(), Grab(w, id))
      modifies this
      ensures Value() == Next(old(Value()), Grab(w, id))
      ensures proceed <==> Deliverable(mails[id], now)
      ensures proceed <==> w in workers
    {
      var row := mails[id];
      var status := row.status;
      if status == Scheduled {
        if row.sendAfter == None || row.sendAfter.value > now {
          return false;
        }
        status := Queued;
      }
      if status != Queued {
        return false;
      }
      workers := workers[w := Worker(id, false)];
      proceed := true;
    }

    // A held rejection whose application is no longer rejected is cancelled instead of sent.
    method GuardStage(w: WorkerId) returns (proceed: bool)
      requires Enabled(Value(), CheckStage(w))
      modifies this
      ensures Value() == Next(old(Value()), CheckStage(w))
      ensures proceed <==> w in workers
    {
      var id := workers[w].id;
      var row := mails[id];
      if row.rejection && row.sendAfter.Some? && row.app.Some? {
        if row.app.value !in stages || stages[row.app.value] != Rejected {
          mails := mails[id := row.(status := Cancelled)];
          workers := workers - {w};
          return false;
        }
      }
      workers := workers[w := Worker(id, true)];
      proceed := true;
    }

    // The provider, suppression and transport part; Some is the delay of arq's Retry.
    method Send(w: WorkerId, outcome: Outcome) returns (retry: Option<Instant>)
      requires Enabled(Value(), Finish(w, outcome))
      requires mails[workers[w].id].attempts < MAX_ATTEMPTS
      modifies this
      ensures Value() == Next(old(Value()), Finish(w, outcome))
      ensures retry.Some? <==> mails[old(workers[w].id)].status == Queued
      ensures match outcome
              case Broken(_) => retry == (match old(mails[workers[w].id].attempts)
                                          case 0 => Some(60_000_000) case 1 => Some(300_000_000) case _ => None)
              case _ => retry == None
      ensures ConcludesAs(old(mails[workers[w].id]), mails[old(workers[w].id)], outcome, now)
    {
      var id := workers[w].id;
      var row := mails[id].(status := Queued);
      retry := None;
      match outcome {
        case Unconfigured =>
          row := row.(status := Failed, lastError := Some("Email not configured"));
        case Skip(reason) =>
          row := row.(status := Suppressed, lastError := Some(reason));
        case Delivered =>
          row := row.(attempts := row.attempts + 1);
          log := log + [Dispatch(id, now, true)];
          row := row.(status := Sent, sentAt := Some(now), lastError := None);
        case Broken(error) =>
          row := row.(attempts := row.attempts + 1);
          log := log + [Dispatch(id, now, false)];
          row := row.(lastError := Some(error));
          if row.attempts >= MAX_ATTEMPTS {
            row := row.(status := Failed);
          } else {
            var last := |RETRY_DELAYS| - 1;
            retry := Some(RETRY_DELAYS[if row.attempts - 1 < last then row.attempts - 1 else last]);
          }
      }
      mails := mails[id := row];
      workers := workers - {w};
    }

    /** One whole delivery job with nobody else about: it touches only a deliverable row, sends no held rejection of
        an application that moved on, and otherwise concludes the row as the transport decided. */
    method DeliverEmail(w: WorkerId, id: MailId, outcome: Outcome) returns (retry: Option<Instant>)
      requires Inv(Value()) && Enabled(Value(), Grab(w, id))
      modifies this
      ensures workers == old(workers) && stages == old(stages) && withdrawals == old(withdrawals) && now == old(now)
      ensures forall other | other in old(mails) && other != id :: other in mails && mails[other] == old(mails)[other]
      ensures id in mails
      ensures var m := old(mails)[id];
              mails[id] ==
                if !Deliverable(m, now) then m
                else if NeedsStage(m) && (m.app.value !in stages || stages[m.app.value] != Rejected) then m.(status := Cancelled)
                else Concluded(m.(status := Queued), outcome, now)
      ensures var m := old(mails)[id];
              Deliverable(m, now) && !(NeedsStage(m) && (m.app.value !in stages || stages[m.app.value] != Rejected)) ==>
                ConcludesAs(m, mails[id], outcome, now)
      ensures var m := old(mails)[id];
              log ==
                if !Deliverable(m, now) then old(log)
                else if NeedsStage(m) && (m.app.value !in stages || stages[m.app.value] != Rejected) then old(log)
                else if Dispatches(outcome) then old(log) + [Dispatch(id, now, outcome.Delivered?)]
                else old(log)
    {
      hide About, MailOk;
      retry := None;
      var proceed := SelectForUpdate(w, id);
      if !proceed {
        return;
      }
      proceed := GuardStage(w);
      assert workers - {w} == old(workers);
      if !proceed {
        return;
      }
      LiveHasRoom(old(mails)[id], About(log, id), now);
      retry := Send(w, outcome);
    }

    method CancelScheduledEmail(id: MailId) returns (cancelled: bool)
      requires Enabled(Value(), StaffCancel(id))
      modifies this
      ensures Value() == Next(old(Value()), StaffCancel(id))
      ensures cancelled <==> old(mails[id].status) == Scheduled
      ensures mails == if cancelled then old(mails)[id := old(mails[id]).(status := Cancelled)] else old(mails)
    {
      if mails[id].status != Scheduled {
        return false;
      }
      mails := mails[id := mails[id].(status := Cancelled)];
      cancelled := true;
    }

    // cancel_for_application over the rows its query locked.
    method CancelRows(rows: set<MailId>) returns (count: nat)
      requires rows <= mails.Keys
      modifies this`mails
      ensures mails == CancelAll(old(mails), rows) && count == |rows|
    {
      count := 0;
      var todo := rows;
      while todo != {}
        invariant todo <= rows && count == |rows| - |todo|
        invariant mails == CancelAll(old(mails), rows - todo)
        decreases |todo|
      {
        var id :| id in todo;
        mails := mails[id := mails[id].(status := Cancelled)];
        todo := todo - {id};
        count := count + 1;
      }
      assert rows - todo == rows;
    }

    // The un-reject's second transaction.
    method CancelForApplication(app: AppId, found: set<MailId>) returns (count: nat)
      requires Enabled(Value(), CancelHeld(app, found))
      modifies this
      ensures Value() == Next(old(Value()), CancelHeld(app, found)) && count == |found|
      ensures mails.Keys == old(mails).Keys
      ensures forall id | id in mails ::
                mails[id] == if id in found then old(mails)[id].(status := Cancelled) else old(mails)[id]
    {
      count := CancelRows(found);
    }

    method LookForHeldRejection(r: RequestId) returns (answer: Option<Answer>)
      requires Enabled(Value(), Look(r))
      modifies this
      ensures Value() == Next(old(Value()), Look(r))
      ensures answer == None <==> r in withdrawals
      ensures answer == Some(Done) <==> old(withdrawals[r].loaded) == Withdrawn
      ensures answer == Some(Conflict) <==>
                old(withdrawals[r].loaded) == Hired
                || (old(withdrawals[r].loaded) == Rejected && !MailIsScheduled(old(Value()), old(withdrawals[r].app)))
      ensures mails == old(mails) && stages == old(stages)
    {
      var q := withdrawals[r];
      var held := false;
      if q.loaded == Rejected {
        held := exists id | id in mails :: mails[id].app == Some(q.app) && mails[id].rejection && mails[id].status == Scheduled;
      }
      if q.loaded == Hired || (q.loaded == Rejected && !held) {
        withdrawals := withdrawals - {r};
        return Some(Conflict);
      }
      if q.loaded == Withdrawn {
        withdrawals := withdrawals - {r};
        return Some(Done);
      }
      withdrawals := withdrawals[r := Moving(q.app, held)];
      answer := None;
    }

    // The end of a withdrawal: one transaction for the stage and the cancels, or a rollback.
    method SettleWithdrawal(r: RequestId) returns (answer: Answer)
      requires Enabled(Value(), Settle(r))
      modifies this
      ensures Value() == Next(old(Value()), Settle(r))
      ensures answer == Conflict <==>
                old(withdrawals[r]).Waiting? && !exists id | id in old(withdrawals[r].found) :: StillToGo(old(Value()), id)
      ensures if answer == Conflict then stages == old(stages) && mails == old(mails)
              else stages == old(stages)[old(withdrawals[r].app) := Withdrawn]
      ensures old(withdrawals[r]).Moving? ==> mails == old(mails)
    {
      SettleWrites(Value(), r);
      var q := withdrawals[r];
      var stagesBefore := stages;
      stages := stages[q.app := Withdrawn];
      withdrawals := withdrawals - {r};
      if q.Waiting? {
        var cancelled := CancelRows(StillHeld(mails, q.found));
        if cancelled == 0 {
          stages := stagesBefore;
          assert mails == old(mails);
          return Conflict;
        }
      }
      answer := Done;
    }
  }
}
