/**
 The application's stage machine: move_stage and its callers in services/applications.py, the withdrawal of
 api/public.py and the stage a candidate is shown while a rejection mail is held.
 Requests run one after the other here; api-level races with the outbox are in module Outbox.
 */
module Stages {
  import opened Basics
  import opened Pipeline

  const WITHDREW := "withdrew"

  predicate Terminal(s: Stage) { s == Rejected || s == Withdrawn || s == Hired }

  predicate TakesReason(s: Stage) { s == Rejected || s == Withdrawn }

  datatype Application = Application(stage: Stage, decidedAt: Option<Instant>, changedAt: Instant,
                                     reason: Option<string>, note: Option<string>)

  // A stage.changed activity entry.
  datatype Entry = Entry(app: AppId, from: Stage, to: Stage, bulk: bool, reason: Option<string>, note: Option<string>)

  datatype State = State(now: Instant, apps: map<AppId, Application>, trail: seq<Entry>)

  datatype Event =
    | Tick(time: Instant)
    | Submit(app: AppId)
    | SetStage(app: AppId, stage: Stage, reason: Option<string>, note: Option<string>)
    | BulkSetStage(apps: seq<AppId>, stage: Stage, reason: Option<string>, note: Option<string>)
    | BulkReject(apps: seq<AppId>, reason: Option<string>, note: Option<string>)
    // held: a rejection mail is scheduled when the request looks; cancels: it is still held at the cancel
    | Withdraw(app: AppId, held: bool, cancels: bool)

  // ---------------------------------------------------------------- one move

  function Moved(a: Application, stage: Stage, reason: Option<string>, note: Option<string>, now: Instant): Application {
    if a.stage == stage then a
    else
      var decidedAt := if Terminal(stage) then Some(now) else None;
      if TakesReason(stage) then Application(stage, decidedAt, now, reason, note)
      else if TakesReason(a.stage) then Application(stage, decidedAt, now, None, None)
      else Application(stage, decidedAt, now, a.reason, a.note)
  }

  // The reason and note a trail entry keeps.
  function Kept(stage: Stage, text: Option<string>): Option<string> {
    if TakesReason(stage) then text else None
  }

  // A known application moves to another stage, with its trail entry.
  function MoveOne(s: State, app: AppId, stage: Stage, bulk: bool, reason: Option<string>, note: Option<string>): State
    requires app in s.apps
  {
    var a := s.apps[app];
    if a.stage == stage then s
    else
      s.(apps := s.apps[app := Moved(a, stage, reason, note, s.now)],
         trail := s.trail + [Entry(app, a.stage, stage, bulk, Kept(stage, reason), Kept(stage, note))])
  }

  // The rows a bulk request moves: known, not there yet, and not withdrawn.
  predicate BulkMoves(s: State, app: AppId, stage: Stage) {
    app in s.apps && s.apps[app].stage != stage && s.apps[app].stage != Withdrawn
  }

  function MoveMany(s: State, apps: seq<AppId>, stage: Stage, reason: Option<string>, note: Option<string>): State
    decreases |apps|
  {
    if apps == [] then s
    else
      var rest := MoveMany(s, apps[..|apps| - 1], stage, reason, note);
      var app := apps[|apps| - 1];
      if BulkMoves(rest, app, stage) then MoveOne(rest, app, stage, true, reason, note) else rest
  }

  function WithdrawAnswer(a: Application, held: bool, cancels: bool): Answer {
    if a.stage == Hired || (a.stage == Rejected && !(held && cancels)) then Conflict else Done
  }

  predicate Enabled(s: State, e: Event) {
    match e
    case Tick(time) => s.now <= time
    case Submit(app) => app !in s.apps
    case SetStage(app, _, _, _) => app in s.apps
    case Withdraw(app, _, _) => app in s.apps
    case _ => true
  }

  function Next(s: State, e: Event): State
    requires Enabled(s, e)
  {
    match e
    case Tick(time) => s.(now := time)
    case Submit(app) => s.(apps := s.apps[app := Application(New, None, s.now, None, None)])
    case SetStage(app, stage, reason, note) => MoveOne(s, app, stage, false, reason, note)
    case BulkSetStage(apps, stage, reason, note) => MoveMany(s, apps, stage, reason, note)
    case BulkReject(apps, reason, note) => MoveMany(s, apps, Rejected, reason, note)
    case Withdraw(app, held, cancels) =>
      if WithdrawAnswer(s.apps[app], held, cancels) == Conflict then s
      else MoveOne(s, app, Withdrawn, false, Some(WITHDREW), None)
  }

  ghost predicate IsRun(s: State, events: seq<Event>)
    decreases |events|
  {
    events == [] || (Enabled(s, events[0]) && IsRun(Next(s, events[0]), events[1..]))
  }

  ghost function After(s: State, events: seq<Event>): State
    requires IsRun(s, events)
    decreases |events|
  {
    if events == [] then s else After(Next(s, events[0]), events[1..])
  }

  // ---------------------------------------------------------------- the trail

  function TrailOf(trail: seq<Entry>, app: AppId): seq<Entry>
    decreases |trail|
  {
    if trail == [] then []
    else
      var rest := TrailOf(trail[..|trail| - 1], app);
      if trail[|trail| - 1].app == app then rest + [trail[|trail| - 1]] else rest
  }

  // An unbroken from/to chain that starts at "new" and never stands still.
  predicate Unbroken(es: seq<Entry>) {
    forall k | 0 <= k < |es| :: Links(es, k)
  }

  predicate Links(es: seq<Entry>, k: nat)
    requires k < |es|
  {
    es[k].from == (if k == 0 then New else es[k - 1].to) && es[k].from != es[k].to
  }

  // Replaying a chain.
  function Replayed(es: seq<Entry>): Stage { if es == [] then New else es[|es| - 1].to }

  predicate AppOk(a: Application, es: seq<Entry>) {
    && Unbroken(es) && Replayed(es) == a.stage
    && a.decidedAt == (if Terminal(a.stage) then Some(a.changedAt) else None)
    && if TakesReason(a.stage)
       then es != [] && es[|es| - 1].reason == a.reason && es[|es| - 1].note == a.note
       else a.reason == None && a.note == None
  }

  ghost predicate Inv(s: State) {
    && (forall app | app in s.apps :: AppOk(s.apps[app], TrailOf(s.trail, app)))
    && (forall k | 0 <= k < |s.trail| :: s.trail[k].app in s.apps)
  }

  lemma {:induction false} NoEntries(trail: seq<Entry>, app: AppId)
    requires forall k | 0 <= k < |trail| :: trail[k].app != app
    ensures TrailOf(trail, app) == []
    decreases |trail|
  {
    if trail != [] { NoEntries(trail[..|trail| - 1], app); }
  }

  lemma AppendEntry(trail: seq<Entry>, e: Entry, app: AppId)
    ensures TrailOf(trail + [e], app) == if e.app == app then TrailOf(trail, app) + [e] else TrailOf(trail, app)
  {
    assert (trail + [e])[..|trail|] == trail;
  }

  lemma AppendUnbroken(es: seq<Entry>, e: Entry)
    requires Unbroken(es) && e.from == Replayed(es) && e.from != e.to
    ensures Unbroken(es + [e])
  {
    var all := es + [e];
    forall k | 0 <= k < |all| ensures Links(all, k) {
      if k < |es| { assert Links(es, k); }
    }
  }

  // What one move does to one application.
  lemma MoveOneAbout(s: State, moved: AppId, stage: Stage, bulk: bool, reason: Option<string>, note: Option<string>, app: AppId)
    requires moved in s.apps
    ensures var t := MoveOne(s, moved, stage, bulk, reason, note);
            && t.apps.Keys == s.apps.Keys && t.now == s.now
            && if app == moved && s.apps[app].stage != stage
               then && t.apps[app] == Moved(s.apps[app], stage, reason, note, s.now)
                    && TrailOf(t.trail, app) == TrailOf(s.trail, app)
                         + [Entry(app, s.apps[app].stage, stage, bulk, Kept(stage, reason), Kept(stage, note))]
               else (app in s.apps ==> t.apps[app] == s.apps[app]) && TrailOf(t.trail, app) == TrailOf(s.trail, app)
  {
    AppendEntry(s.trail, Entry(moved, s.apps[moved].stage, stage, bulk, Kept(stage, reason), Kept(stage, note)), app);
  }

  lemma MoveOneKeepsInv(s: State, app: AppId, stage: Stage, bulk: bool, reason: Option<string>, note: Option<string>)
    requires Inv(s) && app in s.apps
    ensures Inv(MoveOne(s, app, stage, bulk, reason, note))
  {
    var t := MoveOne(s, app, stage, bulk, reason, note);
    forall i | i in t.apps ensures AppOk(t.apps[i], TrailOf(t.trail, i)) {
      MoveOneAbout(s, app, stage, bulk, reason, note, i);
      assert AppOk(s.apps[i], TrailOf(s.trail, i));
      if i == app && s.apps[app].stage != stage {
        AppendUnbroken(TrailOf(s.trail, i), Entry(i, s.apps[i].stage, stage, bulk, Kept(stage, reason), Kept(stage, note)));
      }
    }
  }

  lemma {:induction false} MoveManyKeepsInv(s: State, apps: seq<AppId>, stage: Stage, reason: Option<string>, note: Option<string>)
    requires Inv(s)
    ensures Inv(MoveMany(s, apps, stage, reason, note))
    decreases |apps|
  {
    if apps != [] {
      var rest, app := MoveMany(s, apps[..|apps| - 1], stage, reason, note), apps[|apps| - 1];
      MoveManyKeepsInv(s, apps[..|apps| - 1], stage, reason, note);
      if BulkMoves(rest, app, stage) { MoveOneKeepsInv(rest, app, stage, true, reason, note); }
    }
  }

  lemma StepKeepsInv(s: State, e: Event)
    requires Inv(s) && Enabled(s, e)
    ensures Inv(Next(s, e))
  {
    match e
    case Tick(_) =>
    case Submit(app) => NoEntries(s.trail, app);
    case SetStage(app, stage, reason, note) => MoveOneKeepsInv(s, app, stage, false, reason, note);
    case BulkSetStage(apps, stage, reason, note) => MoveManyKeepsInv(s, apps, stage, reason, note);
    case BulkReject(apps, reason, note) => MoveManyKeepsInv(s, apps, Rejected, reason, note);
    case Withdraw(app, _, _) => MoveOneKeepsInv(s, app, Withdrawn, false, Some(WITHDREW), None);
  }

  lemma {:induction false} RunKeepsInv(s: State, events: seq<Event>)
    requires Inv(s) && IsRun(s, events)
    ensures Inv(After(s, events))
    decreases |events|
  {
    if events != [] {
      StepKeepsInv(s, events[0]);
      RunKeepsInv(Next(s, events[0]), events[1..]);
    }
  }

  /** Over every serial run, replaying an application's trail from "new" is an unbroken chain that ends in its
      current stage; the retention clock runs exactly in terminal stages, and from the move into that stage, never
      from an older one; a reason is present only in rejected or withdrawn, and the trail keeps it. */
  lemma TrailTellsTheStage(now: Instant, events: seq<Event>, app: AppId)
    requires IsRun(State(now, map[], []), events) && app in After(State(now, map[], []), events).apps
    ensures var s := After(State(now, map[], []), events);
            var a, es := s.apps[app], TrailOf(s.trail, app);
            && Unbroken(es) && Replayed(es) == a.stage
            && (a.decidedAt.Some? <==> Terminal(a.stage)) && (a.decidedAt.Some? ==> a.decidedAt.value == a.changedAt)
            && (a.reason.Some? || a.note.Some? ==> TakesReason(a.stage))
            && (TakesReason(a.stage) ==> es != [] && es[|es| - 1].reason == a.reason && es[|es| - 1].note == a.note)
  {
    RunKeepsInv(State(now, map[], []), events);
  }

  // ---------------------------------------------------------------- bulk moves

  /** A bulk request moves each listed application exactly once, skips the ones already there, the withdrawn
      and the unknown, leaves everyone else alone, and writes one trail entry per moved application. */
  lemma {:induction false} BulkMovesEachOnce(s: State, apps: seq<AppId>, stage: Stage, reason: Option<string>, note: Option<string>, app: AppId)
    ensures var t := MoveMany(s, apps, stage, reason, note);
            && t.apps.Keys == s.apps.Keys && t.now == s.now
            && (app in apps && BulkMoves(s, app, stage) ==>
                  && t.apps[app] == Moved(s.apps[app], stage, reason, note, s.now)
                  && TrailOf(t.trail, app) == TrailOf(s.trail, app)
                       + [Entry(app, s.apps[app].stage, stage, true, Kept(stage, reason), Kept(stage, note))])
            && (!(app in apps && BulkMoves(s, app, stage)) ==>
                  (app in s.apps ==> t.apps[app] == s.apps[app]) && TrailOf(t.trail, app) == TrailOf(s.trail, app))
    decreases |apps|
  {
    if apps != [] {
      var shorter, last := apps[..|apps| - 1], apps[|apps| - 1];
      var rest := MoveMany(s, shorter, stage, reason, note);
      BulkMovesEachOnce(s, shorter, stage, reason, note, app);
      assert app in apps <==> app in shorter || app == last;
      if BulkMoves(rest, last, stage) {
        MoveOneAbout(rest, last, stage, true, reason, note, app);
      }
    }
  }

  // ---------------------------------------------------------------- what each request does

  // b is a, moved to another stage at this time: the stage asked for, its stamp, the retention clock in the three terminal
  // stages, the reason and note of a rejection or withdrawal, cleared on the way out of one.
  predicate IsMove(a: Application, b: Application, stage: Stage, reason: Option<string>, note: Option<string>, now: Instant) {
    && a.stage != stage && b.stage == stage && b.changedAt == now
    && b.decidedAt == (match stage case Hired => Some(now) case Rejected => Some(now) case Withdrawn => Some(now) case _ => None)
    && (stage == Rejected || stage == Withdrawn ==> b.reason == reason && b.note == note)
    && (stage != Rejected && stage != Withdrawn ==>
          if a.stage == Rejected || a.stage == Withdrawn then b.reason == None && b.note == None
          else b.reason == a.reason && b.note == a.note)
  }

  // The entry that tells of the move.
  predicate IsEntryOf(e: Entry, app: AppId, from: Stage, stage: Stage, bulk: bool, reason: Option<string>, note: Option<string>) {
    && e.app == app && e.from == from && e.to == stage && e.bulk == bulk
    && e.reason == (if stage == Rejected || stage == Withdrawn then reason else None)
    && e.note == (if stage == Rejected || stage == Withdrawn then note else None)
  }

  // One application, and nothing else, was moved, with one entry; or it was there already and nothing was.
  predicate MovesOne(s: State, t: State, app: AppId, stage: Stage, reason: Option<string>, note: Option<string>) {
    && app in s.apps && t.now == s.now && t.apps.Keys == s.apps.Keys
    && (forall other | other in s.apps && other != app :: t.apps[other] == s.apps[other])
    && t.apps[app].stage == stage
    && if s.apps[app].stage == stage then t == s
       else IsMove(s.apps[app], t.apps[app], stage, reason, note, s.now)
            && |t.trail| == |s.trail| + 1 && t.trail[..|s.trail|] == s.trail
            && IsEntryOf(t.trail[|s.trail|], app, s.apps[app].stage, stage, false, reason, note)
  }

  /** A single move ends in the stage asked for, and changes one application and adds one entry, or nothing. */
  lemma SingleMoveMoves(s: State, app: AppId, stage: Stage, reason: Option<string>, note: Option<string>)
    requires app in s.apps
    ensures MovesOne(s, Next(s, SetStage(app, stage, reason, note)), app, stage, reason, note)
  {
  }

  // A bulk request to a stage: exactly the listed, known, not withdrawn applications that were elsewhere move, each with
  // one entry; all other applications and their trails stay.
  predicate MovesListed(s: State, t: State, apps: seq<AppId>, stage: Stage, reason: Option<string>, note: Option<string>) {
    && t.now == s.now && t.apps.Keys == s.apps.Keys
    && (forall app | app in s.apps :: MovesIfListed(s, t, app, apps, stage, reason, note))
  }

  predicate MovesIfListed(s: State, t: State, app: AppId, apps: seq<AppId>, stage: Stage, reason: Option<string>, note: Option<string>)
    requires app in s.apps && app in t.apps
  {
    if app in apps && s.apps[app].stage != stage && s.apps[app].stage != Withdrawn
    then && IsMove(s.apps[app], t.apps[app], stage, reason, note, s.now)
         && |TrailOf(t.trail, app)| == |TrailOf(s.trail, app)| + 1
         && TrailOf(t.trail, app)[..|TrailOf(s.trail, app)|] == TrailOf(s.trail, app)
         && IsEntryOf(TrailOf(t.trail, app)[|TrailOf(s.trail, app)|], app, s.apps[app].stage, stage, true, reason, note)
    else t.apps[app] == s.apps[app] && TrailOf(t.trail, app) == TrailOf(s.trail, app)
  }

  /** A bulk move moves the applications it lists to its stage, and a bulk rejection to rejected. */
  lemma BulkRequestsMove(s: State, apps: seq<AppId>, stage: Stage, reason: Option<string>, note: Option<string>)
    ensures MovesListed(s, Next(s, BulkSetStage(apps, stage, reason, note)), apps, stage, reason, note)
    ensures MovesListed(s, Next(s, BulkReject(apps, reason, note)), apps, Rejected, reason, note)
  {
    BulkMovesOne(s, apps, stage, reason, note);
    BulkMovesOne(s, apps, Rejected, reason, note);
  }

  lemma BulkMovesOne(s: State, apps: seq<AppId>, stage: Stage, reason: Option<string>, note: Option<string>)
    ensures MovesListed(s, MoveMany(s, apps, stage, reason, note), apps, stage, reason, note)
  {
    hide MoveMany, TrailOf;
    var t := MoveMany(s, apps, stage, reason, note);
    BulkMovesEachOnce(s, apps, stage, reason, note, 0);
    forall app | app in s.apps ensures MovesIfListed(s, t, app, apps, stage, reason, note) {
      BulkMovesThis(s, apps, stage, reason, note, app);
    }
    hide MovesIfListed;
  }

  lemma BulkMovesThis(s: State, apps: seq<AppId>, stage: Stage, reason: Option<string>, note: Option<string>, app: AppId)
    requires app in s.apps
    ensures var t := MoveMany(s, apps, stage, reason, note);
            app in t.apps && MovesIfListed(s, t, app, apps, stage, reason, note)
  {
    hide MoveMany, TrailOf;
    BulkMovesEachOnce(s, apps, stage, reason, note, app);
  }

  /** A submission starts at new with nothing decided and no trail of its own; a withdrawal is refused for a hired
      application, and for a rejected one unless its mail is held and still cancelled, and moves any other. */
  lemma SubmitAndWithdraw(s: State, app: AppId, held: bool, cancels: bool)
    ensures app !in s.apps ==>
              Next(s, Submit(app)) == s.(apps := s.apps[app := Application(New, None, s.now, None, None)])
    ensures app in s.apps ==>
              var a, t := s.apps[app], Next(s, Withdraw(app, held, cancels));
              if a.stage == Hired || (a.stage == Rejected && !(held && cancels)) then t == s
              else MovesOne(s, t, app, Withdrawn, Some("withdrew"), None)
  {
  }

  // ---------------------------------------------------------------- what the candidate sees

  // stage_before_rejection: where the latest move to rejected came from.
  function StageBeforeRejection(trail: seq<Entry>, app: AppId): Stage
    decreases |trail|
  {
    if trail == [] then Screening
    else
      var e := trail[|trail| - 1];
      if e.app == app && e.to == Rejected then e.from else StageBeforeRejection(trail[..|trail| - 1], app)
  }

  // The status page: while the rejection mail is scheduled, the stage before it.
  function ShownStage(s: State, app: AppId, held: bool): Stage
    requires app in s.apps
  {
    if s.apps[app].stage == Rejected && held then StageBeforeRejection(s.trail, app) else s.apps[app].stage
  }

  lemma {:induction false} LatestRejection(trail: seq<Entry>, app: AppId)
    requires TrailOf(trail, app) != [] && Replayed(TrailOf(trail, app)) == Rejected
    ensures StageBeforeRejection(trail, app) == TrailOf(trail, app)[|TrailOf(trail, app)| - 1].from
    decreases |trail|
  {
    if trail[|trail| - 1].app != app { LatestRejection(trail[..|trail| - 1], app); }
  }

  /** Where no entry into rejected is left of the application, it is screening that is shown. */
  lemma {:induction false} WithoutAnEntryItIsScreening(trail: seq<Entry>, app: AppId)
    requires forall k | 0 <= k < |trail| && trail[k].app == app :: trail[k].to != Rejected
    ensures StageBeforeRejection(trail, app) == Screening
    decreases |trail|
  {
    if trail != [] { WithoutAnEntryItIsScreening(trail[..|trail| - 1], app); }
  }

  /** A candidate with a held rejection keeps seeing the stage the trail led to before the rejection, which is
      never "rejected", whatever happened to the application earlier. */
  lemma HeldRejectionIsNotShown(now: Instant, events: seq<Event>, app: AppId)
    requires IsRun(State(now, map[], []), events)
    requires var s := After(State(now, map[], []), events); app in s.apps && s.apps[app].stage == Rejected
    ensures var s := After(State(now, map[], []), events);
            var es := TrailOf(s.trail, app);
            && es != [] && ShownStage(s, app, true) == Replayed(es[..|es| - 1]) && ShownStage(s, app, true) != Rejected
  {
    RunKeepsInv(State(now, map[], []), events);
    var s := After(State(now, map[], []), events);
    var es := TrailOf(s.trail, app);
    assert AppOk(s.apps[app], es);
    LatestRejection(s.trail, app);
    assert Links(es, |es| - 1);
  }

  /** With no mail held, or in any stage but rejected, the candidate sees the stage as it is. */
  lemma OtherwiseTheStageIsShown(s: State, app: AppId, held: bool)
    requires app in s.apps && (!held || s.apps[app].stage != Rejected)
    ensures ShownStage(s, app, held) == s.apps[app].stage
  {
  }

  // ---------------------------------------------------------------- the table the requests write

  class ApplicationTable {
    var now: Instant
    var apps: map<AppId, Application>
    var trail: seq<Entry>

    ghost function Value(): State
      reads this
    {
      State(now, apps, trail)
    }

    method MoveStage(app: AppId, stage: Stage, reason: Option<string>, note: Option<string>) returns (previous: Stage)
      requires app in apps
      modifies this`apps
      ensures previous == old(apps[app].stage)
      ensures apps == old(apps)[app := Moved(old(apps[app]), stage, reason, note, now)]
    {
      var a := apps[app];
      previous := a.stage;
      if previous != stage {
        a := a.(decidedAt := if Terminal(stage) then Some(now) else None);
        if TakesReason(stage) {
          a := a.(reason := reason, note := note);
        } else if TakesReason(previous) {
          a := a.(reason := None, note := None);
        }
        a := a.(stage := stage, changedAt := now);
      }
      apps := apps[app := a];
    }

    method SetStageOf(app: AppId, stage: Stage, reason: Option<string>, note: Option<string>)
      requires app in apps
      modifies this
      ensures Value() == Next(old(Value()), SetStage(app, stage, reason, note))
      ensures MovesOne(old(Value()), Value(), app, stage, reason, note)
    {
      SingleMoveMoves(Value(), app, stage, reason, note);
      var previous := MoveStage(app, stage, reason, note);
      if previous != stage {
        trail := trail + [Entry(app, previous, stage, false, Kept(stage, reason), Kept(stage, note))];
      } else {
        assert apps == old(apps);
      }
    }

    method BulkSetStageOf(ids: seq<AppId>, stage: Stage, reason: Option<string>, note: Option<string>)
      returns (updated: nat)
      modifies this
      ensures Value() == Next(old(Value()), BulkSetStage(ids, stage, reason, note))
      ensures MovesListed(old(Value()), Value(), ids, stage, reason, note)
      ensures |trail| == |old(trail)| + updated
    {
      BulkRequestsMove(Value(), ids, stage, reason, note);
      hide MovesListed;
      updated := 0;
      assert ids[..0] == [];
      for i := 0 to |ids|
        invariant Value() == MoveMany(old(Value()), ids[..i], stage, reason, note)
        invariant |trail| == |old(trail)| + updated
      {
        assert ids[..i + 1][..i] == ids[..i];
        var app := ids[i];
        if app in apps && apps[app].stage != stage && apps[app].stage != Withdrawn {
          var previous := MoveStage(app, stage, reason, note);
          trail := trail + [Entry(app, previous, stage, true, Kept(stage, reason), Kept(stage, note))];
          updated := updated + 1;
        }
      }
      assert ids[..|ids|] == ids;
    }

    method WithdrawApplication(app: AppId, held: bool, cancels: bool) returns (answer: Answer)
      requires app in apps
      modifies this
      ensures Value() == Next(old(Value()), Withdraw(app, held, cancels))
      ensures answer == Conflict <==>
                old(apps[app].stage) == Hired || (old(apps[app].stage) == Rejected && !(held && cancels))
      ensures if answer == Conflict then Value() == old(Value())
              else MovesOne(old(Value()), Value(), app, Withdrawn, Some("withdrew"), None)
    {
      SubmitAndWithdraw(Value(), app, held, cancels);
      var stage := apps[app].stage;
      var heldRejection := stage == Rejected && held;
      if stage == Hired || (stage == Rejected && !heldRejection) {
        return Conflict;
      }
      if stage != Withdrawn {
        var rowBefore, trailBefore := apps[app], trail;
        var previous := MoveStage(app, Withdrawn, Some(WITHDREW), None);
        trail := trail + [Entry(app, previous, Withdrawn, false, Some(WITHDREW), None)];
        if heldRejection && !cancels {
          // rollback: the worker released the mail meanwhile
          apps, trail := apps[app := rowBefore], trailBefore;
          assert apps == old(apps);
          return Conflict;
        }
      }
      answer := Done;
    }
  }
}
