/**
 The open roles board of services/pipeline_signals.py and the filter it links to, over one load of the live rows.
 The database rows come in any order, with one row for each application.
 */
module Board {
  import opened Basics
  import opened Pipeline

  type JobId = nat

  // The stages somebody still works on.
  type LiveStage = s: Stage | s == New || s == Screening || s == Interviewing || s == Offer witness New

  datatype AttemptStatus = AttemptPending | InProgress | Completed | Expired | Invalidated

  datatype AttemptView = AttemptView(status: AttemptStatus, createdAt: Instant, completedAt: Option<Instant>,
                                     expiresAt: Instant)

  // A cancelled interview is no view at all.
  datatype InterviewView = InterviewView(booked: bool, createdAt: Instant, start: Option<Instant>, duration: Instant)

  datatype LiveRow = LiveRow(id: AppId, job: JobId, stage: LiveStage, stageChangedAt: Instant,
                             attempt: Option<AttemptView>, interview: Option<InterviewView>)

  datatype Who = Team | Candidate

  datatype Waiting = Waiting(who: Who, since: Instant)

  // ---------------------------------------------------------------- one row

  // The interview, while it decides: not one that was held before the stage moved on.
  function ActiveInterview(row: LiveRow, now: Instant): Option<InterviewView> {
    match row.interview
    case None => None
    case Some(v) =>
      if v.booked && v.start.Some? && v.start.value + v.duration <= now && v.start.value + v.duration < row.stageChangedAt
      then None
      else Some(v)
  }

  function WaitingOnStage(row: LiveRow, now: Instant): Waiting {
    if row.stage == New && row.attempt.Some? then
      var attempt := row.attempt.value;
      match attempt.status
      case InProgress => Waiting(Candidate, attempt.createdAt)
      case AttemptPending =>
        if attempt.expiresAt > now then Waiting(Candidate, attempt.createdAt) else Waiting(Team, attempt.expiresAt)
      case Completed => Waiting(Team, if attempt.completedAt.Some? then attempt.completedAt.value else row.stageChangedAt)
      case Expired => Waiting(Team, attempt.expiresAt)
      case Invalidated => Waiting(Team, row.stageChangedAt)
    else if row.stage == Offer then Waiting(Candidate, row.stageChangedAt)
    else Waiting(Team, row.stageChangedAt)
  }

  function WaitingOn(row: LiveRow, now: Instant): Waiting {
    match ActiveInterview(row, now)
    case None => WaitingOnStage(row, now)
    case Some(v) =>
      if v.booked && v.start.Some? && v.start.value + v.duration <= now
      then Waiting(Team, v.start.value + v.duration)
      else Waiting(Candidate, v.createdAt)
  }

  // When an interview ends that was booked for a time.
  function InterviewEnd(v: InterviewView): Option<Instant> {
    if v.booked && v.start.Some? then Some(v.start.value + v.duration) else None
  }

  // No interview decides: there is none, or it was held and the stage was changed after it ended.
  predicate NoInterviewDecides(row: LiveRow, now: Instant) {
    row.interview.Some? ==>
      InterviewEnd(row.interview.value).Some?
      && InterviewEnd(row.interview.value).value <= now && InterviewEnd(row.interview.value).value < row.stageChangedAt
  }

  // The candidate is at an assessment that is running, or still to be taken in time.
  predicate AssessmentIsOpen(a: AttemptView, now: Instant) {
    a.status == InProgress || (a.status == AttemptPending && now < a.expiresAt)
  }

  /** Whom a row waits on: the candidate, exactly if an interview is still to be booked or to be held, or no interview
      decides and the candidate has an offer, or is new and has an assessment open. */
  lemma WaitsOnCandidateExactly(row: LiveRow, now: Instant)
    ensures WaitingOn(row, now).who == Candidate <==>
            || (row.interview.Some? && (InterviewEnd(row.interview.value) == None || now < InterviewEnd(row.interview.value).value))
            || (NoInterviewDecides(row, now) && row.stage == Offer)
            || (NoInterviewDecides(row, now) && row.stage == New && row.attempt.Some? && AssessmentIsOpen(row.attempt.value, now))
  {
  }

  /** Since when: an interview's creation or its end, an open assessment's creation, a finished one's end, one that ran
      out its expiry, and the stage's own stamp everywhere else. */
  lemma WaitsSince(row: LiveRow, now: Instant)
    ensures var since := WaitingOn(row, now).since;
            if !NoInterviewDecides(row, now) then
              since == (if WaitingOn(row, now).who == Candidate then row.interview.value.createdAt
                        else InterviewEnd(row.interview.value).value)
            else if row.stage != New || row.attempt == None || row.attempt.value.status == Invalidated then
              since == row.stageChangedAt
            else if AssessmentIsOpen(row.attempt.value, now) then since == row.attempt.value.createdAt
            else if row.attempt.value.status == Completed then
              since == (match row.attempt.value.completedAt case Some(t) => t case None => row.stageChangedAt)
            else since == row.attempt.value.expiresAt
  {
  }

  function DaysBetween(later: Instant, earlier: Instant): int { UtcDay(later) - UtcDay(earlier) }

  predicate IsOverdue(waiting: Waiting, limit: int, now: Instant) {
    waiting.who == Team && DaysBetween(now, waiting.since) > limit
  }

  /** Overdue is a wait on the team of more whole UTC days than the limit; the limit itself is not overdue. */
  lemma OverdueExactly(row: LiveRow, limit: int, now: Instant)
    ensures IsOverdue(WaitingOn(row, now), limit, now) <==>
            WaitingOn(row, now).who == Team
            && now / 86_400_000_000 - WaitingOn(row, now).since / 86_400_000_000 >= limit + 1
  {
  }

  /** Time alone never takes a row off the team: once a row waits on the team it keeps doing so from the same
      moment, and once overdue it stays overdue, until somebody changes it. */
  lemma TeamWaitsStay(row: LiveRow, now: Instant, later: Instant, limit: int)
    requires now <= later && WaitingOn(row, now).who == Team
    ensures WaitingOn(row, later) == WaitingOn(row, now)
    ensures IsOverdue(WaitingOn(row, now), limit, now) ==> IsOverdue(WaitingOn(row, later), limit, later)
  {
    DaysGrow(now, later);
    assert ActiveInterview(row, later) == ActiveInterview(row, now);
  }

  lemma DaysGrow(now: Instant, later: Instant)
    requires now <= later
    ensures UtcDay(now) <= UtcDay(later)
  {
  }

  // What is true of every row: nothing on it was stamped after now, and an expired attempt ran out.
  predicate StampedBefore(row: LiveRow, now: Instant) {
    && row.stageChangedAt <= now
    && (row.attempt.Some? ==>
          && row.attempt.value.createdAt <= now
          && (row.attempt.value.completedAt.Some? ==> row.attempt.value.completedAt.value <= now)
          && (row.attempt.value.status == Expired ==> row.attempt.value.expiresAt <= now))
    && (row.interview.Some? ==> row.interview.value.createdAt <= now)
  }

  /** No wait starts in the future, so no wait is a negative number of days long. */
  lemma WaitsBeganInThePast(row: LiveRow, now: Instant)
    requires StampedBefore(row, now)
    ensures WaitingOn(row, now).since <= now && DaysBetween(now, WaitingOn(row, now).since) >= 0
  {
    DaysGrow(WaitingOn(row, now).since, now);
  }

  // ---------------------------------------------------------------- the filter and the counts

  datatype Test = IsLive | InStage(stage: LiveStage) | WaitsOn(who: Who) | Overdue

  // A job, or all of them, and what is asked of its rows.
  datatype Filter = Filter(job: Option<JobId>, test: Test)

  // The moment of the look and the stage limit in days.
  datatype Look = Look(now: Instant, limit: int)

  predicate Holds(row: LiveRow, f: Filter, q: Look) {
    && (f.job == None || f.job == Some(row.job))
    && match f.test
       case IsLive => true
       case InStage(stage) => row.stage == stage
       case WaitsOn(who) => WaitingOn(row, q.now).who == who
       case Overdue => IsOverdue(WaitingOn(row, q.now), q.limit, q.now)
  }

  // The applications a filter selects; waiting_ids is this with WaitsOn.
  function Ids(rows: seq<LiveRow>, f: Filter, q: Look): set<AppId> {
    set row | row in rows && Holds(row, f, q) :: row.id
  }

  predicate OneRowEach(rows: seq<LiveRow>) { forall i, j | 0 <= i < j < |rows| :: rows[i].id != rows[j].id }

  function Count(rows: seq<LiveRow>, f: Filter, q: Look): nat
    decreases |rows|
  {
    if rows == [] then 0
    else Count(rows[..|rows| - 1], f, q) + if Holds(rows[|rows| - 1], f, q) then 1 else 0
  }

  lemma {:induction false} CountIsTheirNumber(rows: seq<LiveRow>, f: Filter, q: Look)
    requires OneRowEach(rows)
    ensures Count(rows, f, q) == |Ids(rows, f, q)|
    decreases |rows|
  {
    hide Holds;
    if rows == [] {
      assert Ids(rows, f, q) == {};
    } else {
      var before, row := rows[..|rows| - 1], rows[|rows| - 1];
      CountIsTheirNumber(before, f, q);
      assert rows == before + [row];
      IdsOneMore(before, row, f, q);
    }
  }

  lemma IdsOneMore(rows: seq<LiveRow>, row: LiveRow, f: Filter, q: Look)
    requires forall i | 0 <= i < |rows| :: rows[i].id != row.id
    ensures Ids(rows + [row], f, q) == Ids(rows, f, q) + if Holds(row, f, q) then {row.id} else {}
    ensures row.id !in Ids(rows, f, q)
  {
    hide Holds;
    forall r | r in rows + [row] ensures r in rows || r == row {}
  }

  function OfJob(rows: seq<LiveRow>, job: JobId): seq<LiveRow>
    decreases |rows|
  {
    if rows == [] then []
    else
      var row := rows[|rows| - 1];
      OfJob(rows[..|rows| - 1], job) + if row.job == job then [row] else []
  }

  lemma CountOneMore(rows: seq<LiveRow>, row: LiveRow, f: Filter, q: Look)
    ensures Count(rows + [row], f, q) == Count(rows, f, q) + if Holds(row, f, q) then 1 else 0
  {
    assert (rows + [row])[..|rows|] == rows;
  }

  // Counting in a job's group is counting with the job in the filter.
  lemma {:induction false} GroupCounts(rows: seq<LiveRow>, job: JobId, test: Test, q: Look)
    ensures Count(OfJob(rows, job), Filter(None, test), q) == Count(rows, Filter(Some(job), test), q)
    decreases |rows|
  {
    if rows != [] {
      var before, row := rows[..|rows| - 1], rows[|rows| - 1];
      GroupCounts(before, job, test, q);
      if row.job == job {
        CountOneMore(OfJob(before, job), row, Filter(None, test), q);
      } else {
        assert OfJob(rows, job) == OfJob(before, job);
      }
    }
  }

  function SumOver(jobs: seq<JobId>, rows: seq<LiveRow>, test: Test, q: Look): nat
    decreases |jobs|
  {
    if jobs == [] then 0
    else SumOver(jobs[..|jobs| - 1], rows, test, q) + Count(rows, Filter(Some(jobs[|jobs| - 1]), test), q)
  }

  predicate DistinctJobs(jobs: seq<JobId>) { forall i, j | 0 <= i < j < |jobs| :: jobs[i] != jobs[j] }

  // One row adds to the sum through its own job and no other.
  lemma {:induction false} SumOneMore(jobs: seq<JobId>, rows: seq<LiveRow>, row: LiveRow, test: Test, q: Look)
    requires DistinctJobs(jobs)
    ensures SumOver(jobs, rows + [row], test, q) ==
            SumOver(jobs, rows, test, q) + if row.job in jobs && Holds(row, Filter(None, test), q) then 1 else 0
    decreases |jobs|
  {
    hide WaitingOn, IsOverdue;
    if jobs != [] {
      var before, last := jobs[..|jobs| - 1], jobs[|jobs| - 1];
      assert jobs == before + [last];
      SumOneMore(before, rows, row, test, q);
      CountOneMore(rows, row, Filter(Some(last), test), q);
    }
  }

  lemma {:induction false} SumOverNothing(jobs: seq<JobId>, test: Test, q: Look)
    ensures SumOver(jobs, [], test, q) == 0
    decreases |jobs|
  {
    if jobs != [] {
      SumOverNothing(jobs[..|jobs| - 1], test, q);
    }
  }

  predicate CoversJobs(jobs: seq<JobId>, rows: seq<LiveRow>) { forall i | 0 <= i < |rows| :: rows[i].job in jobs }

  /** Grouping by job loses and doubles nothing: over distinct jobs that cover the rows the counts of the groups add
      up to the count over all rows. */
  lemma {:induction false} GroupsAddUp(jobs: seq<JobId>, rows: seq<LiveRow>, test: Test, q: Look)
    requires DistinctJobs(jobs) && CoversJobs(jobs, rows)
    ensures SumOver(jobs, rows, test, q) == Count(rows, Filter(None, test), q)
    decreases |rows|
  {
    hide Holds;
    if rows == [] {
      SumOverNothing(jobs, test, q);
    } else {
      var before, row := rows[..|rows| - 1], rows[|rows| - 1];
      assert rows == before + [row];
      GroupsAddUp(jobs, before, test, q);
      SumOneMore(jobs, before, row, test, q);
    }
  }

  /** The two waiting lists share nobody and together are everybody. */
  lemma EveryoneWaitsOnOneSide(rows: seq<LiveRow>, job: Option<JobId>, q: Look)
    requires OneRowEach(rows)
    ensures var team, candidate := Ids(rows, Filter(job, WaitsOn(Team)), q), Ids(rows, Filter(job, WaitsOn(Candidate)), q);
            team !! candidate && team + candidate == Ids(rows, Filter(job, IsLive), q)
  {
    hide WaitingOn, IsOverdue;
    var team, candidate := Ids(rows, Filter(job, WaitsOn(Team)), q), Ids(rows, Filter(job, WaitsOn(Candidate)), q);
    forall id | id in Ids(rows, Filter(job, IsLive), q) ensures id in team + candidate {
      var row :| row in rows && row.id == id && Holds(row, Filter(job, IsLive), q);
      assert Holds(row, Filter(job, WaitsOn(WaitingOn(row, q.now).who)), q);
    }
  }

  // ---------------------------------------------------------------- the board

  datatype BoardJob = BoardJob(job: JobId, liveByStage: map<LiveStage, nat>, waitingOnTeam: nat,
                               longestWait: Option<int>, overdue: nat)

  datatype Totals = Totals(activeJobs: nat, live: nat, waitingOnTeam: nat, overdue: nat)

  const NO_STAGES: map<LiveStage, nat> := map[New := 0, Screening := 0, Interviewing := 0, Offer := 0]

  // A count for every stage.
  predicate AllStages(stages: map<LiveStage, nat>) { forall stage: LiveStage :: stage in stages }

  // The sum of the stage counts.
  function LiveOf(stages: map<LiveStage, nat>): nat
    requires AllStages(stages)
  {
    stages[New] + stages[Screening] + stages[Interviewing] + stages[Offer]
  }

  predicate StagesCounted(stages: map<LiveStage, nat>, rows: seq<LiveRow>, q: Look) {
    && AllStages(stages)
    && (forall stage | stage in stages :: stages[stage] == Count(rows, Filter(None, InStage(stage)), q))
    && LiveOf(stages) == Count(rows, Filter(None, IsLive), q)
  }

  predicate IsLongest(longest: Option<int>, waits: seq<int>) {
    if waits == [] then longest == None
    else longest.Some? && longest.value in waits && forall days | days in waits :: days <= longest.value
  }

  // A board line agrees with the rows of its job.
  predicate Summarizes(b: BoardJob, rows: seq<LiveRow>, q: Look) {
    && StagesCounted(b.liveByStage, rows, q)
    && b.waitingOnTeam == Count(rows, Filter(None, WaitsOn(Team)), q)
    && b.overdue == Count(rows, Filter(None, Overdue), q)
    && IsLongest(b.longestWait, Waits(rows, q))
  }

  // The days each row of a group has waited on the team, in the rows' order.
  function Waits(rows: seq<LiveRow>, q: Look): seq<int>
    decreases |rows|
  {
    if rows == [] then []
    else
      var w := WaitingOn(rows[|rows| - 1], q.now);
      Waits(rows[..|rows| - 1], q) + if w.who == Team then [DaysBetween(q.now, w.since)] else []
  }

  function CountOver(waits: seq<int>, limit: int): nat
    decreases |waits|
  {
    if waits == [] then 0
    else CountOver(waits[..|waits| - 1], limit) + if waits[|waits| - 1] > limit then 1 else 0
  }

  lemma {:induction false} WaitsCount(rows: seq<LiveRow>, q: Look)
    ensures |Waits(rows, q)| == Count(rows, Filter(None, WaitsOn(Team)), q)
    ensures CountOver(Waits(rows, q), q.limit) == Count(rows, Filter(None, Overdue), q)
    decreases |rows|
  {
    if rows != [] {
      var before, w := rows[..|rows| - 1], WaitingOn(rows[|rows| - 1], q.now);
      WaitsCount(before, q);
      if w.who == Team {
        var waits, days := Waits(before, q), DaysBetween(q.now, w.since);
        assert Waits(rows, q) == waits + [days];
        assert (waits + [days])[..|waits|] == waits;
      } else {
        assert Waits(rows, q) == Waits(before, q);
      }
    }
  }

  lemma StagesOneMore(stages: map<LiveStage, nat>, rows: seq<LiveRow>, row: LiveRow, q: Look)
    requires StagesCounted(stages, rows, q)
    ensures StagesCounted(stages[row.stage := stages[row.stage] + 1], rows + [row], q)
  {
    hide WaitingOn, IsOverdue, Count;
    var stages' := stages[row.stage := stages[row.stage] + 1];
    forall stage | stage in stages' ensures stages'[stage] == Count(rows + [row], Filter(None, InStage(stage)), q) {
      CountOneMore(rows, row, Filter(None, InStage(stage)), q);
    }
    CountOneMore(rows, row, Filter(None, IsLive), q);
  }

  method Longest(waits: seq<int>) returns (longest: Option<int>)
    ensures IsLongest(longest, waits)
  {
    longest := None;
    for i := 0 to |waits|
      invariant IsLongest(longest, waits[..i])
    {
      assert waits[..i + 1] == waits[..i] + [waits[i]];
      if longest == None || longest.value < waits[i] {
        longest := Some(waits[i]);
      }
    }
    assert waits[..|waits|] == waits;
  }

  // One line of the board, from the rows of its job.
  method SummarizeJob(job: JobId, rows: seq<LiveRow>, q: Look) returns (b: BoardJob)
    ensures b.job == job && Summarizes(b, rows, q)
  {
    hide WaitingOn;
    var stages: map<LiveStage, nat> := NO_STAGES;
    var waits: seq<int> := [];
    for i := 0 to |rows|
      invariant StagesCounted(stages, rows[..i], q)
      invariant waits == Waits(rows[..i], q)
    {
      var row := rows[i];
      assert rows[..i + 1] == rows[..i] + [row];
      assert rows[..i + 1][..i] == rows[..i];
      StagesOneMore(stages, rows[..i], row, q);
      stages := stages[row.stage := stages[row.stage] + 1];
      var waiting := WaitingOn(row, q.now);
      if waiting.who == Team {
        waits := waits + [DaysBetween(q.now, waiting.since)];
      }
    }
    assert rows[..|rows|] == rows;
    WaitsCount(rows, q);
    var longest := Longest(waits);
    b := BoardJob(job, stages, |waits|, longest, CountOver(waits, q.limit));
  }

  ghost predicate Grouped(byJob: map<JobId, seq<LiveRow>>, rows: seq<LiveRow>) {
    forall job :: OfJob(rows, job) == if job in byJob then byJob[job] else []
  }

  lemma GroupedOneMore(byJob: map<JobId, seq<LiveRow>>, rows: seq<LiveRow>, row: LiveRow)
    requires Grouped(byJob, rows)
    ensures Grouped(byJob[row.job := (if row.job in byJob then byJob[row.job] else []) + [row]], rows + [row])
  {
    assert (rows + [row])[..|rows|] == rows;
  }

  // Jobs that are exactly those of the rows, each once.
  ghost predicate JobsOf(jobs: seq<JobId>, rows: seq<LiveRow>) {
    DistinctJobs(jobs) && forall job :: job in jobs <==> exists i | 0 <= i < |rows| :: rows[i].job == job
  }

  lemma JobsOneMore(jobs: seq<JobId>, rows: seq<LiveRow>, row: LiveRow)
    requires JobsOf(jobs, rows)
    ensures JobsOf(if row.job in jobs then jobs else jobs + [row.job], rows + [row])
  {
    var after := if row.job in jobs then jobs else jobs + [row.job];
    forall job ensures job in after <==> exists i | 0 <= i < |rows + [row]| :: (rows + [row])[i].job == job {
      if job in jobs {
        var i :| 0 <= i < |rows| && rows[i].job == job;
        assert (rows + [row])[i].job == job;
      }
      assert (rows + [row])[|rows|] == row;
    }
  }

  // Rows by job and the jobs in the order they first show up.
  method GroupByJob(rows: seq<LiveRow>) returns (byJob: map<JobId, seq<LiveRow>>, jobs: seq<JobId>)
    ensures JobsOf(jobs, rows) && Grouped(byJob, rows)
  {
    byJob, jobs := map[], [];
    for i := 0 to |rows|
      invariant JobsOf(jobs, rows[..i]) && Grouped(byJob, rows[..i])
    {
      hide JobsOf, Grouped, OfJob;
      var row := rows[i];
      assert rows[..i + 1] == rows[..i] + [row];
      GroupedOneMore(byJob, rows[..i], row);
      JobsOneMore(jobs, rows[..i], row);
      byJob := byJob[row.job := (if row.job in byJob then byJob[row.job] else []) + [row]];
      if row.job !in jobs {
        jobs := jobs + [row.job];
      }
    }
    assert rows[..|rows|] == rows;
  }

  // Published jobs join the list, also those without a live row.
  method AddPublished(found: seq<JobId>, published: seq<JobId>) returns (jobs: seq<JobId>)
    requires DistinctJobs(found)
    ensures DistinctJobs(jobs) && forall job :: job in jobs <==> job in found || job in published
  {
    jobs := found;
    for i := 0 to |published|
      invariant DistinctJobs(jobs) && forall job :: job in jobs <==> job in found || job in published[..i]
    {
      assert published[..i + 1] == published[..i] + [published[i]];
      if published[i] !in jobs {
        jobs := jobs + [published[i]];
      }
    }
    assert published[..|published|] == published;
  }

  // What a finished board owes the rows it was built from.
  predicate LinesAgree(out: seq<BoardJob>, jobs: seq<JobId>, rows: seq<LiveRow>, q: Look) {
    |out| == |jobs| && forall i | 0 <= i < |out| :: out[i].job == jobs[i] && Summarizes(out[i], OfJob(rows, jobs[i]), q)
  }

  // The totals are those of the filter, counted in applications.
  predicate TotalsAgree(totals: Totals, rows: seq<LiveRow>, q: Look) {
    var team := Ids(rows, Filter(None, WaitsOn(Team)), q);
    var candidate := Ids(rows, Filter(None, WaitsOn(Candidate)), q);
    && totals.live == |rows| == |team| + |candidate|
    && totals.waitingOnTeam == |team|
    && totals.overdue == |Ids(rows, Filter(None, Overdue), q)|
  }

  // A line's numbers are the filter's, narrowed to the job.
  predicate LineMatchesFilter(b: BoardJob, rows: seq<LiveRow>, q: Look) {
    && AllStages(b.liveByStage)
    && (forall stage | stage in b.liveByStage :: b.liveByStage[stage] == |Ids(rows, Filter(Some(b.job), InStage(stage)), q)|)
    && b.waitingOnTeam == |Ids(rows, Filter(Some(b.job), WaitsOn(Team)), q)|
    && b.overdue == |Ids(rows, Filter(Some(b.job), Overdue), q)|
  }

  lemma GroupIsFilter(rows: seq<LiveRow>, job: JobId, test: Test, q: Look)
    requires OneRowEach(rows)
    ensures Count(OfJob(rows, job), Filter(None, test), q) == |Ids(rows, Filter(Some(job), test), q)|
  {
    GroupCounts(rows, job, test, q);
    CountIsTheirNumber(rows, Filter(Some(job), test), q);
  }

  lemma LineIsFilter(b: BoardJob, rows: seq<LiveRow>, q: Look)
    requires OneRowEach(rows) && Summarizes(b, OfJob(rows, b.job), q)
    ensures LineMatchesFilter(b, rows, q) && IsLongest(b.longestWait, Waits(OfJob(rows, b.job), q))
  {
    hide Count, Ids, OfJob, Holds, OneRowEach;
    forall stage | stage in b.liveByStage
      ensures b.liveByStage[stage] == |Ids(rows, Filter(Some(b.job), InStage(stage)), q)|
    {
      GroupIsFilter(rows, b.job, InStage(stage), q);
    }
    GroupIsFilter(rows, b.job, WaitsOn(Team), q);
    GroupIsFilter(rows, b.job, Overdue, q);
  }

  // Everything counted over all jobs is the filter without a job.
  lemma WholeIsFilter(jobs: seq<JobId>, rows: seq<LiveRow>, test: Test, q: Look)
    requires OneRowEach(rows) && DistinctJobs(jobs) && CoversJobs(jobs, rows)
    ensures SumOver(jobs, rows, test, q) == |Ids(rows, Filter(None, test), q)|
  {
    GroupsAddUp(jobs, rows, test, q);
    CountIsTheirNumber(rows, Filter(None, test), q);
  }

  lemma {:induction false} CountAll(rows: seq<LiveRow>, q: Look)
    ensures Count(rows, Filter(None, IsLive), q) == |rows|
    decreases |rows|
  {
    if rows != [] {
      CountAll(rows[..|rows| - 1], q);
    }
  }

  lemma SumsAgree(jobs: seq<JobId>, rows: seq<LiveRow>, totals: Totals, q: Look)
    requires OneRowEach(rows) && DistinctJobs(jobs) && CoversJobs(jobs, rows)
    requires totals.live == SumOver(jobs, rows, IsLive, q)
    requires totals.waitingOnTeam == SumOver(jobs, rows, WaitsOn(Team), q)
    requires totals.overdue == SumOver(jobs, rows, Overdue, q)
    ensures TotalsAgree(totals, rows, q)
  {
    hide Count, Ids, Holds, OneRowEach, SumOver;
    WholeIsFilter(jobs, rows, IsLive, q);
    WholeIsFilter(jobs, rows, WaitsOn(Team), q);
    WholeIsFilter(jobs, rows, Overdue, q);
    CountIsTheirNumber(rows, Filter(None, IsLive), q);
    CountAll(rows, q);
    EveryoneWaitsOnOneSide(rows, None, q);
  }

  /** The board and the filter agree at one instant: every line's numbers are those of the filter for its job, every
      job with a live row and every published job has one line, and the totals are those of the filter for all jobs. */
  method BuildBoard(rows: seq<LiveRow>, published: seq<JobId>, q: Look) returns (out: seq<BoardJob>, totals: Totals)
    requires OneRowEach(rows)
    ensures forall i, j | 0 <= i < j < |out| :: out[i].job != out[j].job
    ensures forall job :: (exists i | 0 <= i < |out| :: out[i].job == job) <==>
                          job in published || exists i | 0 <= i < |rows| :: rows[i].job == job
    ensures forall i | 0 <= i < |out| :: LineMatchesFilter(out[i], rows, q) && IsLongest(out[i].longestWait, Waits(OfJob(rows, out[i].job), q))
    ensures totals.activeJobs == |out| && TotalsAgree(totals, rows, q)
  {
    hide Count, Ids, Holds, OneRowEach, OfJob, LineMatchesFilter, TotalsAgree, IsLongest, Waits, Summarizes, SumOver;
    var byJob, found := GroupByJob(rows);
    var jobs := AddPublished(found, published);
    out := [];
    for i := 0 to |jobs|
      invariant LinesAgree(out, jobs[..i], rows, q)
    {
      var b := SummarizeJob(jobs[i], if jobs[i] in byJob then byJob[jobs[i]] else [], q);
      out := out + [b];
    }
    assert jobs[..|jobs|] == jobs;
    totals := AddUp(out, jobs, rows, q);
    forall i | 0 <= i < |out|
      ensures LineMatchesFilter(out[i], rows, q) && IsLongest(out[i].longestWait, Waits(OfJob(rows, out[i].job), q))
    {
      LineIsFilter(out[i], rows, q);
    }
    assert forall i | 0 <= i < |rows| :: rows[i].job in jobs;
    SumsAgree(jobs, rows, totals, q);
  }

  // The totals row, summed over the lines.
  method AddUp(out: seq<BoardJob>, ghost jobs: seq<JobId>, ghost rows: seq<LiveRow>, ghost q: Look) returns (totals: Totals)
    requires LinesAgree(out, jobs, rows, q)
    ensures totals.activeJobs == |out|
    ensures totals.live == SumOver(jobs, rows, IsLive, q)
    ensures totals.waitingOnTeam == SumOver(jobs, rows, WaitsOn(Team), q)
    ensures totals.overdue == SumOver(jobs, rows, Overdue, q)
  {
    hide Count, Holds, OfJob, IsLongest;
    totals := Totals(|out|, 0, 0, 0);
    for i := 0 to |out|
      invariant totals.activeJobs == |out|
      invariant totals.live == SumOver(jobs[..i], rows, IsLive, q)
      invariant totals.waitingOnTeam == SumOver(jobs[..i], rows, WaitsOn(Team), q)
      invariant totals.overdue == SumOver(jobs[..i], rows, Overdue, q)
    {
      assert jobs[..i + 1][..i] == jobs[..i];
      GroupCounts(rows, jobs[i], IsLive, q);
      GroupCounts(rows, jobs[i], WaitsOn(Team), q);
      GroupCounts(rows, jobs[i], Overdue, q);
      totals := totals.(live := totals.live + LiveOf(out[i].liveByStage),
                        waitingOnTeam := totals.waitingOnTeam + out[i].waitingOnTeam,
                        overdue := totals.overdue + out[i].overdue);
    }
    assert jobs[..|jobs|] == jobs;
  }
}
