/**
 Single moves that overlap: a request loads the application, and writes the columns it changed against that copy
 when it commits, with no lock and no second look (services/applications.py, the stage route of
 api/applications.py). What the trail and the row still promise, and exactly when.
 Every move reads a later clock than the commits before it.
 */
module StaleMoves {
  import opened Basics
  import opened Pipeline
  import opened Stages

  type RequestId = nat

  // A request that holds a copy of an application.
  datatype InFlight = InFlight(app: AppId, copy: Application)

  datatype Moves = Moves(now: Instant, apps: map<AppId, Application>, requests: map<RequestId, InFlight>, trail: seq<Entry>)

  datatype Step =
    | Apply(app: AppId)
    | Open(r: RequestId, app: AppId)
    | Write(r: RequestId, at: Instant, stage: Stage, reason: Option<string>, note: Option<string>)
    | Leave(r: RequestId)

  predicate Allowed(s: Moves, e: Step) {
    match e
    case Apply(app) => app !in s.apps
    case Open(r, app) => r !in s.requests && app in s.apps
    case Write(r, at, _, _, _) => r in s.requests && s.requests[r].app in s.apps && s.now < at
    case Leave(r) => r in s.requests
  }

  // The flush: a column goes out only if the request changed it.
  function Flushed(row: Application, copy: Application, moved: Application): Application {
    Application(if moved.stage == copy.stage then row.stage else moved.stage,
                if moved.decidedAt == copy.decidedAt then row.decidedAt else moved.decidedAt,
                if moved.changedAt == copy.changedAt then row.changedAt else moved.changedAt,
                if moved.reason == copy.reason then row.reason else moved.reason,
                if moved.note == copy.note then row.note else moved.note)
  }

  function Stepped(s: Moves, e: Step): Moves
    requires Allowed(s, e)
  {
    match e
    case Apply(app) => s.(apps := s.apps[app := Application(New, None, s.now, None, None)])
    case Open(r, app) => s.(requests := s.requests[r := InFlight(app, s.apps[app])])
    case Write(r, at, stage, reason, note) =>
      var q := s.requests[r];
      var t := s.(now := at, requests := s.requests - {r});
      if q.copy.stage == stage then t
      else
        t.(apps := s.apps[q.app := Flushed(s.apps[q.app], q.copy, Moved(q.copy, stage, reason, note, at))],
           trail := s.trail + [Entry(q.app, q.copy.stage, stage, false, Kept(stage, reason), Kept(stage, note))])
    case Leave(r) => s.(requests := s.requests - {r})
  }

  ghost predicate IsHistory(s: Moves, steps: seq<Step>)
    decreases |steps|
  {
    steps == [] || (Allowed(s, steps[0]) && IsHistory(Stepped(s, steps[0]), steps[1..]))
  }

  ghost function AfterAll(s: Moves, steps: seq<Step>): Moves
    requires IsHistory(s, steps)
    decreases |steps|
  {
    if steps == [] then s else AfterAll(Stepped(s, steps[0]), steps[1..])
  }

  const NOBODY := Moves(0, map[], map[], [])

  // ---------------------------------------------------------------- the trail

  // The write moves an application away from a stage it is no longer in.
  predicate IsStale(s: Moves, e: Step, app: AppId)
    requires Allowed(s, e)
  {
    e.Write? && s.requests[e.r].app == app && s.requests[e.r].copy.stage != e.stage
    && s.requests[e.r].copy.stage != s.apps[app].stage
  }

  ghost predicate NoStaleWrite(s: Moves, steps: seq<Step>, app: AppId)
    requires IsHistory(s, steps)
    decreases |steps|
  {
    steps != [] ==> !IsStale(s, steps[0], app) && NoStaleWrite(Stepped(s, steps[0]), steps[1..], app)
  }

  // The trail ends in the stage, and is of known applications.
  ghost predicate InStep(s: Moves) {
    && (forall app | app in s.apps :: Replayed(TrailOf(s.trail, app)) == s.apps[app].stage)
    && (forall k | 0 <= k < |s.trail| :: s.trail[k].app in s.apps)
  }

  lemma StepKeepsInStep(s: Moves, e: Step)
    requires InStep(s) && Allowed(s, e)
    ensures InStep(Stepped(s, e))
  {
    var t := Stepped(s, e);
    forall app | app in t.apps ensures Replayed(TrailOf(t.trail, app)) == t.apps[app].stage {
      if e.Apply? && app == e.app {
        NoEntries(s.trail, app);
      } else if e.Write? && s.requests[e.r].copy.stage != e.stage {
        AppendEntry(s.trail, t.trail[|s.trail|], app);
      }
    }
  }

  lemma UnbrokenFront(es: seq<Entry>, e: Entry)
    ensures Unbroken(es + [e]) <==> Unbroken(es) && e.from == Replayed(es) && e.from != e.to
  {
    var all := es + [e];
    forall k | 0 <= k < |es| ensures Links(all, k) <==> Links(es, k) {}
    if Unbroken(all) { assert Links(all, |es|); }
    if Unbroken(es) && e.from == Replayed(es) && e.from != e.to { AppendUnbroken(es, e); }
  }

  lemma {:induction false} ChainFollowsWrites(s: Moves, steps: seq<Step>, app: AppId)
    requires InStep(s) && IsHistory(s, steps)
    ensures var t := AfterAll(s, steps);
            && InStep(t)
            && (Unbroken(TrailOf(t.trail, app)) <==> Unbroken(TrailOf(s.trail, app)) && NoStaleWrite(s, steps, app))
    decreases |steps|
  {
    if steps != [] {
      var e, t := steps[0], Stepped(s, steps[0]);
      StepKeepsInStep(s, e);
      if e.Write? && s.requests[e.r].copy.stage != e.stage {
        var entry := t.trail[|s.trail|];
        AppendEntry(s.trail, entry, app);
        UnbrokenFront(TrailOf(s.trail, app), entry);
      }
      ChainFollowsWrites(t, steps[1..], app);
    }
  }

  /** Over every interleaving of single moves the trail ends in the application's stage; and it is an unbroken chain
      from "new" if and only if no write moved the application away from a stage it was no longer in. */
  lemma TrailUnderInterleaving(steps: seq<Step>, app: AppId)
    requires IsHistory(NOBODY, steps) && app in AfterAll(NOBODY, steps).apps
    ensures var t := AfterAll(NOBODY, steps);
            && Replayed(TrailOf(t.trail, app)) == t.apps[app].stage
            && (Unbroken(TrailOf(t.trail, app)) <==> NoStaleWrite(NOBODY, steps, app))
  {
    ChainFollowsWrites(NOBODY, steps, app);
  }

  // ---------------------------------------------------------------- what one write does

  /** The commit of a request leaves the application in the stage it asked for if and only if the copy it loaded was in
      another one, or the row is there already. A write that moves stamps the row and adds one entry, from the copy's
      stage; one that does not changes nothing; and no other application is touched. */
  lemma WriteMovesExactly(s: Moves, r: RequestId, at: Instant, stage: Stage, reason: Option<string>, note: Option<string>)
    requires Allowed(s, Write(r, at, stage, reason, note))
    ensures var app, copy, t := s.requests[r].app, s.requests[r].copy, Stepped(s, Write(r, at, stage, reason, note));
            && t.apps.Keys == s.apps.Keys && (forall other | other in s.apps && other != app :: t.apps[other] == s.apps[other])
            && t.requests == s.requests - {r} && t.now == at
            && (t.apps[app].stage == stage <==> copy.stage != stage || s.apps[app].stage == stage)
            && if copy.stage == stage then t.apps == s.apps && t.trail == s.trail
               else && |t.trail| == |s.trail| + 1 && t.trail[..|s.trail|] == s.trail
                    && t.trail[|s.trail|].app == app && t.trail[|s.trail|].from == copy.stage
                    && t.trail[|s.trail|].to == stage && !t.trail[|s.trail|].bulk
                    && (copy.changedAt < at ==> t.apps[app].changedAt == at)
  {
    hide TrailOf;
  }

  // Two people have the page open on a new application; one moves it to screening, the other asks for "new".
  const SKIPPED := [Apply(0), Open(1, 0), Open(2, 0), Write(2, 1, Screening, None, None), Write(1, 2, New, None, None)]

  /** And one that does not reach it: the second request is answered with success, and the application stays in
      screening with one entry in its trail. */
  lemma MoveIsSkipped()
    ensures IsHistory(NOBODY, SKIPPED)
    ensures var t := AfterAll(NOBODY, SKIPPED);
            && t.apps == map[0 := Application(Screening, None, 1, None, None)]
            && t.trail == [Entry(0, New, Screening, false, None, None)]
  {
    var applied := Application(New, None, 0, None, None);
    var q := InFlight(0, applied);
    var s1 := Moves(0, map[0 := applied], map[], []);
    var s2 := s1.(requests := map[1 := q]);
    var s3 := s1.(requests := map[1 := q, 2 := q]);
    var s4 := Moves(1, map[0 := Application(Screening, None, 1, None, None)], map[1 := q],
                    [Entry(0, New, Screening, false, None, None)]);
    assert Stepped(NOBODY, SKIPPED[0]) == s1 && Stepped(s1, SKIPPED[1]) == s2 && Stepped(s2, SKIPPED[2]) == s3;
    assert s3.requests - {2} == s2.requests;
    assert Stepped(s3, SKIPPED[3]) == s4;
    var s5 := s4.(now := 2, requests := map[]);
    assert s4.requests - {1} == map[];
    assert Stepped(s4, SKIPPED[4]) == s5;
    hide Stepped, Flushed, Moved, TrailOf, Unbroken;
    OneStep(s4, SKIPPED[4..]);
    assert SKIPPED[3..][1..] == SKIPPED[4..] && SKIPPED[2..][1..] == SKIPPED[3..] && SKIPPED[1..][1..] == SKIPPED[2..];
    assert IsHistory(s3, SKIPPED[3..]) && AfterAll(s3, SKIPPED[3..]) == s5;
    assert IsHistory(s2, SKIPPED[2..]) && AfterAll(s2, SKIPPED[2..]) == s5;
    assert IsHistory(s1, SKIPPED[1..]) && AfterAll(s1, SKIPPED[1..]) == s5;
  }

  // ---------------------------------------------------------------- the row

  // The retention clock runs exactly in terminal stages; reasons and notes are kept only where they belong.
  predicate RowOk(a: Application) {
    && (a.decidedAt.Some? <==> Terminal(a.stage))
    && (a.reason.Some? || a.note.Some? ==> TakesReason(a.stage))
  }

  // What the write of a stage leaves behind that the copy knew nothing of: a running clock, a reason, a note.
  predicate LeavesNothing(row: Application, copy: Application, stage: Stage) {
    && (row.decidedAt.Some? && copy.decidedAt == None ==> Terminal(stage))
    && (row.reason.Some? && copy.reason == None ==> TakesReason(stage))
    && (row.note.Some? && copy.note == None ==> TakesReason(stage))
  }

  /** A write to another stage leaves a sound row if and only if everything that would have to go was already on the
      copy: a flush does not clear a column that looked clear when the request loaded it. */
  lemma SoundExactly(row: Application, copy: Application, stage: Stage, reason: Option<string>, note: Option<string>, at: Instant)
    requires RowOk(row) && RowOk(copy) && copy.stage != stage
    requires copy.decidedAt.Some? ==> copy.decidedAt.value < at
    ensures RowOk(Flushed(row, copy, Moved(copy, stage, reason, note, at))) <==> LeavesNothing(row, copy, stage)
  {
  }

  // Copies and rows carry no clock later than the last commit's.
  ghost predicate Dated(s: Moves) {
    && (forall app | app in s.apps :: s.apps[app].decidedAt.Some? ==> s.apps[app].decidedAt.value <= s.now)
    && (forall r | r in s.requests :: s.requests[r].copy.decidedAt.Some? ==> s.requests[r].copy.decidedAt.value <= s.now)
  }

  ghost predicate AllSound(s: Moves) {
    && (forall app | app in s.apps :: RowOk(s.apps[app]))
    && (forall r | r in s.requests :: s.requests[r].app in s.apps && RowOk(s.requests[r].copy))
  }

  // The write, if it is one, leaves nothing behind.
  predicate Tidy(s: Moves, e: Step)
    requires Allowed(s, e)
  {
    e.Write? && s.requests[e.r].copy.stage != e.stage ==>
      LeavesNothing(s.apps[s.requests[e.r].app], s.requests[e.r].copy, e.stage)
  }

  ghost predicate AllTidy(s: Moves, steps: seq<Step>)
    requires IsHistory(s, steps)
    decreases |steps|
  {
    steps != [] ==> Tidy(s, steps[0]) && AllTidy(Stepped(s, steps[0]), steps[1..])
  }

  // Sound rows stay sound through a step exactly when it is tidy.
  lemma StepIsSoundExactly(s: Moves, e: Step)
    requires AllSound(s) && Dated(s) && Allowed(s, e)
    ensures Dated(Stepped(s, e)) && (AllSound(Stepped(s, e)) <==> Tidy(s, e))
  {
    if e.Write? {
      var q, t := s.requests[e.r], Stepped(s, e);
      assert RowOk(s.apps[q.app]) && RowOk(q.copy);
      if q.copy.stage != e.stage {
        SoundExactly(s.apps[q.app], q.copy, e.stage, e.reason, e.note, e.at);
        if AllSound(t) { assert RowOk(t.apps[q.app]); }
      }
    }
  }

  ghost predicate SoundThroughout(s: Moves, steps: seq<Step>)
    requires IsHistory(s, steps)
    decreases |steps|
  {
    AllSound(s) && (steps != [] ==> SoundThroughout(Stepped(s, steps[0]), steps[1..]))
  }

  lemma {:induction false} SoundFrom(s: Moves, steps: seq<Step>)
    requires AllSound(s) && Dated(s) && IsHistory(s, steps)
    ensures SoundThroughout(s, steps) <==> AllTidy(s, steps)
    decreases |steps|
  {
    if steps != [] {
      StepIsSoundExactly(s, steps[0]);
      if Tidy(s, steps[0]) {
        SoundFrom(Stepped(s, steps[0]), steps[1..]);
      } else {
        assert !AllSound(Stepped(s, steps[0]));
      }
    }
  }

  /** Over every interleaving of single moves, the clock and the reasons are right all along if and only if no write
      left behind what a commit since its load had put on the row. */
  lemma SoundUnderInterleaving(steps: seq<Step>)
    requires IsHistory(NOBODY, steps)
    ensures SoundThroughout(NOBODY, steps) <==> AllTidy(NOBODY, steps)
  {
    SoundFrom(NOBODY, steps);
  }

  // ---------------------------------------------------------------- two people move one application

  // One advances the application from a page on which the other has just rejected it.
  function Crossing(reason: string): seq<Step> {
    [Apply(0), Open(1, 0), Open(2, 0), Write(2, 1, Rejected, Some(reason), None), Write(1, 2, Interviewing, None, None)]
  }

  /** The move that crosses a rejection ends in "interviewing" with the rejection's reason and a running retention
      clock, and the trail says it came straight from "new". */
  lemma CrossingMoves(reason: string)
    ensures IsHistory(NOBODY, Crossing(reason))
    ensures var t := AfterAll(NOBODY, Crossing(reason));
            && t.apps == map[0 := Application(Interviewing, Some(1), 2, Some(reason), None)]
            && t.trail == [Entry(0, New, Rejected, false, Some(reason), None), Entry(0, New, Interviewing, false, None, None)]
            && !Unbroken(TrailOf(t.trail, 0))
  {
    var applied := Application(New, None, 0, None, None);
    var q := InFlight(0, applied);
    var all := Crossing(reason);
    var s1 := Moves(0, map[0 := applied], map[], []);
    var s2 := s1.(requests := map[1 := q]);
    var s3 := s1.(requests := map[1 := q, 2 := q]);
    var first := Entry(0, New, Rejected, false, Some(reason), None);
    var s4 := Moves(1, map[0 := Application(Rejected, Some(1), 1, Some(reason), None)], map[1 := q], [first]);
    assert Stepped(NOBODY, all[0]) == s1 && Stepped(s1, all[1]) == s2 && Stepped(s2, all[2]) == s3;
    assert s3.requests - {2} == s2.requests;
    assert Stepped(s3, all[3]) == s4;
    var second := Entry(0, New, Interviewing, false, None, None);
    var s5 := Moves(2, map[0 := Application(Interviewing, Some(1), 2, Some(reason), None)], map[], [first, second]);
    assert s4.requests - {1} == map[];
    assert s4.trail + [second] == [first, second];
    assert Stepped(s4, all[4]) == s5;
    hide Stepped, Flushed, Moved, TrailOf, Unbroken;
    OneStep(s4, all[4..]);
    assert all[3..][1..] == all[4..] && all[2..][1..] == all[3..] && all[1..][1..] == all[2..];
    assert IsHistory(s3, all[3..]) && AfterAll(s3, all[3..]) == s5;
    assert IsHistory(s2, all[2..]) && AfterAll(s2, all[2..]) == s5;
    assert IsHistory(s1, all[1..]) && AfterAll(s1, all[1..]) == s5;
    BrokenChain(first, second);
  }

  lemma OneStep(s: Moves, steps: seq<Step>)
    requires |steps| == 1 && Allowed(s, steps[0])
    ensures IsHistory(s, steps) && AfterAll(s, steps) == Stepped(s, steps[0])
  {
    assert steps[1..] == [];
  }

  lemma BrokenChain(first: Entry, second: Entry)
    requires first.app == second.app == 0 && first.from == second.from == New && first.to == Rejected
    ensures !Unbroken(TrailOf([first, second], 0))
  {
    AppendEntry([], first, 0);
    AppendEntry([first], second, 0);
    assert [first, second] == [] + [first] + [second] && [] + [first] == [first];
    assert !Links([first, second], 1);
  }
}
