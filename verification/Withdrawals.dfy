/**
 The withdrawal of api/public.py, step by step: which answer a candidate gets for which stage, what is written, and what
 a decision taken in between does to it.
 */
module Withdrawals {
  import opened Basics
  import opened Pipeline
  import opened Outbox

  // A rejection of this application whose mail has not been released.
  predicate MailIsScheduled(s: State, app: AppId) {
    exists id | id in s.mails :: s.mails[id].app == Some(app) && s.mails[id].rejection && s.mails[id].status == Scheduled
  }

  // The withdrawal r went away, or went on, and nothing else changed.
  predicate OnlyTheRequest(s: State, t: State, r: RequestId) {
    && t == s.(withdrawals := t.withdrawals)
    && t.withdrawals - {r} == s.withdrawals - {r}
  }

  /** A withdrawal starts from the stage the application is in. */
  lemma OpenLoads(s: State, r: RequestId, app: AppId)
    requires Enabled(s, Open(r, app))
    ensures var t := Next(s, Open(r, app));
            && OnlyTheRequest(s, t, r)
            && app in s.stages && r in t.withdrawals && t.withdrawals[r] == Opened(app, s.stages[app])
  {
    assert r !in s.withdrawals;
  }

  /** What the first look decides: a hired application, and a rejected one whose mail is not scheduled any more, keep their
      decision; a withdrawn one has nothing to do; a rejected one whose mail is still scheduled has to cancel it first. */
  lemma LookDecides(s: State, r: RequestId)
    requires Enabled(s, Look(r))
    ensures var q, t := s.withdrawals[r], Next(s, Look(r));
            && OnlyTheRequest(s, t, r)
            && match q.loaded
               case Hired => r !in t.withdrawals
               case Withdrawn => r !in t.withdrawals
               case Rejected => if MailIsScheduled(s, q.app) then r in t.withdrawals && t.withdrawals[r] == Moving(q.app, true)
                                else r !in t.withdrawals
               case _ => r in t.withdrawals && t.withdrawals[r] == Moving(q.app, false)
  {
  }

  /** The collection finds the mails of the application that are still to go out after a hold, and no other. */
  lemma CollectFindsHeld(s: State, r: RequestId)
    requires Enabled(s, Collect(r))
    ensures var q, t := s.withdrawals[r], Next(s, Collect(r));
            && OnlyTheRequest(s, t, r) && r in t.withdrawals && t.withdrawals[r].Waiting? && t.withdrawals[r].app == q.app
            && forall id :: id in t.withdrawals[r].found <==>
                 id in s.mails && s.mails[id].app == Some(q.app) && s.mails[id].rejection
                 && (s.mails[id].status == Scheduled || (s.mails[id].status == Queued && s.mails[id].sendAfter.Some?))
  {
  }

  // Mail id can still be kept from going out.
  predicate StillToGo(s: State, id: MailId) {
    id in s.mails && s.mails[id].rejection
    && (s.mails[id].status == Scheduled || (s.mails[id].status == Queued && s.mails[id].sendAfter.Some?))
  }

  /** What the last step writes: with no mail to cancel, the stage and nothing else; with mails to cancel, the stage and
      exactly those still to go, or if there is none, nothing. */
  lemma SettleWrites(s: State, r: RequestId)
    requires Enabled(s, Settle(r))
    ensures var q, t := s.withdrawals[r], Next(s, Settle(r));
            && t == s.(mails := t.mails, stages := t.stages, withdrawals := s.withdrawals - {r})
            && t.mails.Keys == s.mails.Keys
            && if q.Moving? then t.mails == s.mails && t.stages == s.stages[q.app := Withdrawn]
               else if exists id | id in q.found :: StillToGo(s, id)
               then && t.stages == s.stages[q.app := Withdrawn]
                    && forall id | id in s.mails ::
                         t.mails[id] == if id in q.found && StillToGo(s, id) then s.mails[id].(status := Cancelled) else s.mails[id]
               else t.mails == s.mails && t.stages == s.stages
  {
    var q := s.withdrawals[r];
    if q.Waiting? {
      assert forall id :: id in StillHeld(s.mails, q.found) <==> id in q.found && StillToGo(s, id);
      assert (exists id | id in q.found :: StillToGo(s, id)) <==> StillHeld(s.mails, q.found) != {} by {
        if id :| id in q.found && StillToGo(s, id) { assert id in StillHeld(s.mails, q.found); }
      }
    }
  }

  // ---------------------------------------------------------------- what the loaded stage decides

  // How far a withdrawal can be that loaded this stage.
  predicate Follows(s: State, r: RequestId, app: AppId, loaded: Stage) {
    r in s.withdrawals ==>
      match s.withdrawals[r]
      case Opened(a, l) => a == app && l == loaded
      case Moving(a, held) => a == app && loaded != Hired && loaded != Withdrawn && (held <==> loaded == Rejected)
      case Waiting(a, _) => a == app && loaded == Rejected
  }

  lemma {:induction false} RunFollows(s: State, events: seq<Event>, r: RequestId, app: AppId, loaded: Stage)
    requires IsRun(s, events) && Follows(s, r, app, loaded)
    requires forall k | 0 <= k < |events| :: !(events[k].Open? && events[k].r == r)
    ensures Follows(After(s, events), r, app, loaded)
    decreases |events|
  {
    if events != [] {
      RunFollows(Next(s, events[0]), events[1..], r, app, loaded);
    }
  }

  /** In every run, whatever is delivered, cancelled or moved in between: a withdrawal that loaded a hired or withdrawn
      application never gets to change its stage; one that loaded a rejected one changes it exactly if a mail it found is
      still to go, and only then keeps it from going. */
  lemma DecisionsTheCandidateKnowsStay(s: State, r: RequestId, during: seq<Event>)
    requires r in s.withdrawals && s.withdrawals[r].Opened? && IsRun(s, during)
    requires forall k | 0 <= k < |during| :: !(during[k].Open? && during[k].r == r)
    requires Enabled(After(s, during), Settle(r))
    ensures var app, loaded, t := s.withdrawals[r].app, s.withdrawals[r].loaded, After(s, during);
            && loaded != Hired && loaded != Withdrawn
            && (loaded == Rejected ==>
                  && t.withdrawals[r].Waiting? && t.withdrawals[r].app == app
                  && if exists id | id in t.withdrawals[r].found :: StillToGo(t, id)
                     then Next(t, Settle(r)).stages == t.stages[app := Withdrawn]
                     else Next(t, Settle(r)).stages == t.stages && Next(t, Settle(r)).mails == t.mails)
            && (loaded != Rejected ==> Next(t, Settle(r)).stages == t.stages[app := Withdrawn])
  {
    RunFollows(s, during, r, s.withdrawals[r].app, s.withdrawals[r].loaded);
    SettleWrites(After(s, during), r);
  }

  // ---------------------------------------------------------------- a decision taken meanwhile

  // The candidate opens the page in screening; then the application is rejected and the mail goes out.
  function DecidedMeanwhile(app: AppId): seq<Event> {
    [Look(1), Move(app, Rejected), Queue(0, Some(app), true, None), Grab(2, 0), CheckStage(2), Finish(2, Delivered)]
  }

  lemma {:induction false} TakesSteps(s: State, events: seq<Event>, states: seq<State>)
    requires |states| == |events| + 1 && states[0] == s
    requires forall k | 0 <= k < |events| :: Enabled(states[k], events[k]) && Next(states[k], events[k]) == states[k + 1]
    ensures IsRun(s, events) && After(s, events) == states[|events|]
    decreases |events|
  {
    if events != [] {
      TakesSteps(states[1], events[1..], states[1..]);
    }
  }

  const MAILED := Mail(None, true, 0, None, Queued, 0, None, None)

  // The database after each step.
  function Meanwhile(app: AppId): (states: seq<State>)
    ensures |states| == 7
  {
    var m := MAILED.(app := Some(app));
    var s0 := State(0, map[], map[app := Screening], map[], map[1 := Opened(app, Screening)], []);
    var s1 := s0.(withdrawals := map[1 := Moving(app, false)]);
    var s2 := s1.(stages := map[app := Rejected]);
    var s3 := s2.(mails := map[0 := m]);
    var s6 := s3.(mails := map[0 := m.(status := Sent, attempts := 1, sentAt := Some(0))], log := [Dispatch(0, 0, true)]);
    [s0, s1, s2, s3, s3.(workers := map[2 := Worker(0, false)]), s3.(workers := map[2 := Worker(0, true)]), s6]
  }

  lemma DecidesMeanwhile(app: AppId)
    ensures var states, events := Meanwhile(app), DecidedMeanwhile(app);
            forall k | 0 <= k < 3 :: Enabled(states[k], events[k]) && Next(states[k], events[k]) == states[k + 1]
  {
  }

  lemma DeliversMeanwhile(app: AppId)
    ensures var states, events := Meanwhile(app), DecidedMeanwhile(app);
            forall k | 3 <= k < 6 :: Enabled(states[k], events[k]) && Next(states[k], events[k]) == states[k + 1]
  {
    var states := Meanwhile(app);
    assert states[5].workers - {2} == states[3].workers;
  }

  /** A withdrawal that loaded an undecided application does not look again: it overwrites a rejection the candidate has
      been told of in between. */
  lemma LateWithdrawalOverwrites(app: AppId)
    ensures var s := State(0, map[], map[app := Screening], map[], map[1 := Opened(app, Screening)], []);
            && IsRun(s, DecidedMeanwhile(app))
            && var t := After(s, DecidedMeanwhile(app));
               && t.stages == map[app := Rejected] && 0 in t.mails && t.mails[0].status == Sent && Enabled(t, Settle(1))
               && Next(t, Settle(1)).stages == map[app := Withdrawn]
  {
    DecidesMeanwhile(app);
    DeliversMeanwhile(app);
    TakesSteps(Meanwhile(app)[0], DecidedMeanwhile(app), Meanwhile(app));
    hide IsRun, After;
  }
}
