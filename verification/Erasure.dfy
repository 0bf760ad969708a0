/**
 Erasing a person out of two stores: services/erasure.py and the purge and orphan sweep of services/retention.py,
 over the application rows and the CV objects they point to.

 A task loads its applications, deletes the object of each in turn and stages the row deletes; the rows go only
 when it commits. Other tasks, submissions, uploads and sweeps come in between any two steps.
 */
module Erasure {
  import opened Basics
  import opened Pipeline

  type CandidateId = nat
  type TaskId = nat
  type Key = string

  const UPLOAD_GRACE := 24 * HOUR

  // An application; an empty object key counts as none.
  datatype Row = Row(candidate: CandidateId, cv: Option<Key>)

  // An application as a task loaded it.
  datatype Loaded = Loaded(app: AppId, cv: Option<Key>)

  // A task in flight: the person it erases, or None for the retention purge; what it loaded and has not reached;
  // the rows it will delete. late, a history variable, holds the keys uploaded since the task last deleted them.
  datatype Task = Task(person: Option<CandidateId>, todo: seq<Loaded>, done: set<AppId>, late: set<Key>)

  // A sweep in flight: the keys the rows pointed to when it read them, then the objects it is about to delete. known, a
  // history variable, holds the applications there had been when it read.
  datatype Sweeping = Sweeping(known: set<AppId>, referenced: set<Key>, doomed: Option<set<Key>>)

  // met and used hold every person's and every application's id ever given out. An object is known by the time it
  // was last written.
  datatype State = State(candidates: set<CandidateId>, met: set<CandidateId>, rows: map<AppId, Row>,
                         used: set<AppId>, objects: map<Key, Instant>, tasks: map<TaskId, Task>,
                         sweeps: map<TaskId, Sweeping>)

  // Deleting an object works, or raises without or after having removed it. A sweep keeps what it failed to delete.
  datatype Outcome = Removed | RaisedBefore | RaisedAfter

  datatype Event =
    | Upload(key: Key, at: Instant)
    | Submit(candidate: CandidateId, app: AppId, cv: Option<Key>)
    | StartErase(task: TaskId, person: CandidateId, list: seq<AppId>)
    | StartPurge(task: TaskId, list: seq<AppId>)
    | EraseNext(task: TaskId, outcome: Outcome)
    | Commit(task: TaskId)
    | Crash(task: TaskId)
    | SweepRead(sweep: TaskId)
    | SweepList(sweep: TaskId, now: Instant)
    | SweepDelete(sweep: TaskId, kept: set<Key>)

  // ---------------------------------------------------------------- the steps

  predicate Distinct(list: seq<AppId>) { forall i, j | 0 <= i < j < |list| :: list[i] != list[j] }

  function Members(list: seq<AppId>): set<AppId> { set a | a in list }

  function RowsOf(rows: map<AppId, Row>, c: CandidateId): set<AppId> {
    set a | a in rows && rows[a].candidate == c
  }

  predicate Cites(rows: map<AppId, Row>, k: Key) { exists a | a in rows :: rows[a].cv == Some(k) }

  function Load(rows: map<AppId, Row>, list: seq<AppId>): seq<Loaded>
    requires forall i | 0 <= i < |list| :: list[i] in rows
  {
    seq(|list|, i requires 0 <= i < |list| => Loaded(list[i], rows[list[i]].cv))
  }

  function Without(objects: map<Key, Instant>, cv: Option<Key>): map<Key, Instant> {
    if cv.Some? then objects - {cv.value} else objects
  }

  function CitedKeys(rows: map<AppId, Row>): set<Key> {
    set a | a in rows && rows[a].cv.Some? :: rows[a].cv.value
  }

  // The objects older than a day that no row pointed to.
  function Orphans(objects: map<Key, Instant>, referenced: set<Key>, now: Instant): set<Key> {
    set k | k in objects && k !in referenced && objects[k] < now - UPLOAD_GRACE
  }

  // What a task's commit deletes: the rows it staged and, by the cascade, whatever the person then has.
  function Vanishing(rows: map<AppId, Row>, task: Task): set<AppId> {
    set a | a in rows && (a in task.done || task.person == Some(rows[a].candidate))
  }

  predicate Enabled(s: State, e: Event) {
    match e
    case Upload(_, _) => true
    case Submit(c, app, _) => app !in s.used && (c in s.candidates || c !in s.met)
    case StartErase(t, person, list) =>
      t !in s.tasks && person in s.candidates && Distinct(list) && Members(list) == RowsOf(s.rows, person)
    case StartPurge(t, list) =>
      t !in s.tasks && Distinct(list) && forall i | 0 <= i < |list| :: list[i] in s.rows
    case EraseNext(t, outcome) =>
      t in s.tasks && s.tasks[t].todo != [] && (s.tasks[t].todo[0].cv == None ==> outcome == Removed)
    case Commit(t) => t in s.tasks && s.tasks[t].todo == []
    case Crash(t) => t in s.tasks
    case SweepRead(t) => t !in s.sweeps
    case SweepList(t, _) => t in s.sweeps && s.sweeps[t].doomed == None
    case SweepDelete(t, _) => t in s.sweeps && s.sweeps[t].doomed.Some?
  }

  // A raise ends the erasure of a person; the purge skips the application and goes on.
  function Raised(s: State, t: TaskId): State
    requires t in s.tasks && s.tasks[t].todo != []
  {
    var task := s.tasks[t];
    if task.person.Some? then s.(tasks := s.tasks - {t})
    else s.(tasks := s.tasks[t := task.(todo := task.todo[1..])])
  }

  function Next(s: State, e: Event): State
    requires Enabled(s, e)
  {
    match e
    case Upload(k, at) =>
      s.(objects := s.objects[k := at],
         tasks := map t | t in s.tasks :: s.tasks[t].(late := s.tasks[t].late + {k}))
    case Submit(c, app, cv) =>
      s.(candidates := s.candidates + {c}, met := s.met + {c}, rows := s.rows[app := Row(c, cv)], used := s.used + {app})
    case StartErase(t, person, list) =>
      assert forall i | 0 <= i < |list| :: list[i] in RowsOf(s.rows, person);
      s.(tasks := s.tasks[t := Task(Some(person), Load(s.rows, list), {}, {})])
    case StartPurge(t, list) =>
      s.(tasks := s.tasks[t := Task(None, Load(s.rows, list), {}, {})])
    case EraseNext(t, outcome) =>
      var task := s.tasks[t];
      var first := task.todo[0];
      match outcome {
        case Removed =>
          var late := if first.cv.Some? then task.late - {first.cv.value} else task.late;
          s.(objects := Without(s.objects, first.cv),
             tasks := s.tasks[t := task.(todo := task.todo[1..], done := task.done + {first.app}, late := late)])
        case RaisedBefore => Raised(s, t)
        case RaisedAfter => Raised(s.(objects := Without(s.objects, first.cv)), t)
      }
    case Commit(t) =>
      var task := s.tasks[t];
      var rows := s.rows - Vanishing(s.rows, task);
      var gone := if task.person.Some? then {task.person.value}
                  else set c | c in s.candidates && RowsOf(rows, c) == {};
      s.(candidates := s.candidates - gone, rows := rows, tasks := s.tasks - {t})
    case Crash(t) => s.(tasks := s.tasks - {t})
    case SweepRead(t) =>
      s.(sweeps := s.sweeps[t := Sweeping(s.used, CitedKeys(s.rows), None)])
    case SweepList(t, now) =>
      s.(sweeps := s.sweeps[t := s.sweeps[t].(doomed := Some(Orphans(s.objects, s.sweeps[t].referenced, now)))])
    case SweepDelete(t, kept) =>
      s.(objects := s.objects - (s.sweeps[t].doomed.value - kept), sweeps := s.sweeps - {t})
  }

  predicate IsRun(s: State, events: seq<Event>)
    decreases |events|
  {
    events != [] ==> Enabled(s, events[0]) && IsRun(Next(s, events[0]), events[1..])
  }

  function After(s: State, events: seq<Event>): State
    requires IsRun(s, events)
    decreases |events|
  {
    if events == [] then s else After(Next(s, events[0]), events[1..])
  }

  const EMPTY := State({}, {}, map[], {}, map[], map[], map[])

  // ---------------------------------------------------------------- what every step keeps

  // What a task loaded is what the row still says; a staged row has lost its object unless it came back.
  predicate TaskOk(s: State, task: Task) {
    && (forall i | 0 <= i < |task.todo| :: task.todo[i].app in s.used)
    && (forall i | 0 <= i < |task.todo| :: task.todo[i].app in s.rows ==> s.rows[task.todo[i].app].cv == task.todo[i].cv)
    && task.done <= s.used
    && (forall a | a in task.done && a in s.rows && s.rows[a].cv.Some? ::
          s.rows[a].cv.value in s.objects ==> s.rows[a].cv.value in task.late)
  }

  predicate Inv(s: State) {
    && s.rows.Keys <= s.used
    && (forall a | a in s.rows :: s.rows[a].candidate in s.candidates)
    && (forall t | t in s.tasks :: TaskOk(s, s.tasks[t]))
    && (forall t | t in s.sweeps :: SweepOk(s, s.sweeps[t]))
  }

  // A row the sweep could read had its key among those it read.
  predicate SweepOk(s: State, w: Sweeping) {
    && w.known <= s.used
    && (forall a | a in s.rows && a in w.known && s.rows[a].cv.Some? :: s.rows[a].cv.value in w.referenced)
    && (w.doomed.Some? ==> w.doomed.value !! w.referenced)
  }

  lemma SweepsStayOk(s: State, e: Event)
    requires Inv(s) && Enabled(s, e)
    ensures forall t | t in Next(s, e).sweeps :: SweepOk(Next(s, e), Next(s, e).sweeps[t])
  {
    hide TaskOk, Cites;
    forall t | t in Next(s, e).sweeps ensures SweepOk(Next(s, e), Next(s, e).sweeps[t]) {
      if t in s.sweeps { assert SweepOk(s, s.sweeps[t]); }
    }
  }

  // A task nobody touches stays sound when rows only go or are new, and objects only go.
  lemma TaskStaysOk(s: State, s': State, task: Task)
    requires TaskOk(s, task) && s.used <= s'.used && s.rows.Keys <= s.used
    requires forall a | a in s'.rows && a in s.used :: a in s.rows && s'.rows[a] == s.rows[a]
    requires s'.objects.Keys <= s.objects.Keys
    ensures TaskOk(s', task)
  {
    forall i | 0 <= i < |task.todo| && task.todo[i].app in s'.rows ensures s'.rows[task.todo[i].app].cv == task.todo[i].cv {
      assert task.todo[i].app in s.used;
    }
  }

  lemma UploadKeepsTaskOk(s: State, k: Key, at: Instant, t: TaskId)
    requires Inv(s) && t in s.tasks
    ensures var s' := Next(s, Upload(k, at)); TaskOk(s', s'.tasks[t])
  {
    assert TaskOk(s, s.tasks[t]);
  }

  lemma EraseNextKeepsInv(s: State, t: TaskId, outcome: Outcome)
    requires Inv(s) && Enabled(s, EraseNext(t, outcome))
    ensures Inv(Next(s, EraseNext(t, outcome)))
  {
    SweepsStayOk(s, EraseNext(t, outcome));
    var s' := Next(s, EraseNext(t, outcome));
    var task := s.tasks[t];
    assert TaskOk(s, task);
    var first := task.todo[0];
    assert first.app in s.used;
    forall u | u in s'.tasks ensures TaskOk(s', s'.tasks[u]) {
      assert TaskOk(s, s.tasks[u]);
      TaskStaysOk(s, s', s.tasks[u]);
      if u == t {
        var task' := s'.tasks[t];
        forall i | 0 <= i < |task'.todo| ensures task'.todo[i] == task.todo[i + 1] {}
      }
    }
  }

  lemma StartKeepsInv(s: State, e: Event)
    requires Inv(s) && Enabled(s, e) && (e.StartErase? || e.StartPurge?)
    requires forall i | 0 <= i < |e.list| :: e.list[i] in s.rows
    ensures Inv(Next(s, e))
  {
    SweepsStayOk(s, e);
    var s' := Next(s, e);
    forall t | t in s'.tasks ensures TaskOk(s', s'.tasks[t]) {
      if t != e.task { TaskStaysOk(s, s', s.tasks[t]); }
    }
  }

  lemma StepKeepsInv(s: State, e: Event)
    requires Inv(s) && Enabled(s, e)
    ensures Inv(Next(s, e))
  {
    SweepsStayOk(s, e);
    hide SweepOk;
    var s' := Next(s, e);
    match e
    case Upload(k, at) =>
      forall t | t in s'.tasks ensures TaskOk(s', s'.tasks[t]) { UploadKeepsTaskOk(s, k, at, t); }
    case EraseNext(t, outcome) =>
      EraseNextKeepsInv(s, t, outcome);
    case StartErase(t, c, list) =>
      forall i | 0 <= i < |list| ensures list[i] in RowsOf(s.rows, c) { assert list[i] in Members(list); }
      StartKeepsInv(s, e);
    case StartPurge(t, list) =>
      StartKeepsInv(s, e);
    case Commit(t) =>
      forall a | a in s'.rows ensures s'.rows[a].candidate in s'.candidates {
        assert a in RowsOf(s'.rows, s.rows[a].candidate) && a !in Vanishing(s.rows, s.tasks[t]);
      }
      forall u | u in s'.tasks ensures TaskOk(s', s'.tasks[u]) { TaskStaysOk(s, s', s.tasks[u]); }
    case _ =>
      forall t | t in s'.tasks && t in s.tasks && s'.tasks[t] == s.tasks[t] ensures TaskOk(s', s'.tasks[t]) {
        TaskStaysOk(s, s', s.tasks[t]);
      }
  }

  lemma {:induction false} RunKeepsInv(s: State, events: seq<Event>)
    requires Inv(s) && IsRun(s, events)
    ensures Inv(After(s, events))
    decreases |events|
  {
    if events != [] {
      StepKeepsInv(s, events[0]);
      RunKeepsInv(Next(s, events[0]), events[1..]);
    }
  }

  // ---------------------------------------------------------------- what the steps of a task do

  // A step of one task touches no other person, sweep or task.
  predicate OthersStay(s: State, s': State, t: TaskId) {
    && s'.met == s.met && s'.used == s.used && s'.sweeps == s.sweeps
    && s'.tasks - {t} == s.tasks - {t}
  }

  /** One application of a task: its object goes unless the deletion raised beforehand, nothing else is deleted, and
      it is staged exactly when nothing was raised; a raise ends the erasure of a person and lets a purge go on. */
  lemma EraseNextDeletes(s: State, t: TaskId, outcome: Outcome)
    requires Enabled(s, EraseNext(t, outcome))
    ensures var s' := Next(s, EraseNext(t, outcome));
            var task, first := s.tasks[t], s.tasks[t].todo[0];
            && OthersStay(s, s', t) && s'.candidates == s.candidates && s'.rows == s.rows
            && (forall k :: k in s'.objects <==> k in s.objects && (outcome == RaisedBefore || first.cv != Some(k)))
            && (forall k | k in s'.objects :: s'.objects[k] == s.objects[k])
            && (t !in s'.tasks <==> outcome != Removed && task.person.Some?)
            && (t in s'.tasks ==>
                  && s'.tasks[t].todo == task.todo[1..] && s'.tasks[t].person == task.person
                  && forall a :: a in s'.tasks[t].done <==> a in task.done || (outcome == Removed && a == first.app))
  {
  }

  /** The commit: the staged rows go and, for a person, all they have by then; the person goes, after a purge whoever
      has no row left; no object does. */
  lemma CommitTakes(s: State, t: TaskId)
    requires Inv(s) && Enabled(s, Commit(t))
    ensures var s' := Next(s, Commit(t));
            var person, staged := s.tasks[t].person, s.tasks[t].done;
            && OthersStay(s, s', t) && t !in s'.tasks && s'.objects == s.objects
            && (forall a :: a in s'.rows <==> a in s.rows && a !in staged && person != Some(s.rows[a].candidate))
            && (forall a | a in s'.rows :: s'.rows[a] == s.rows[a])
            && (person.Some? ==> forall c :: c in s'.candidates <==> c in s.candidates && c != person.value)
            && (person == None ==>
                  forall c :: c in s'.candidates <==> c in s.candidates && exists a | a in s'.rows :: s'.rows[a].candidate == c)
  {
    var s' := Next(s, Commit(t));
    forall c ensures RowsOf(s'.rows, c) == {} <==> !exists a | a in s'.rows :: s'.rows[a].candidate == c {
      if a :| a in s'.rows && s'.rows[a].candidate == c { assert a in RowsOf(s'.rows, c); }
    }
  }

  /** What a start loads: every row the person then has, or the rows the purge was given, each with its object. */
  lemma StartLoads(s: State, e: Event)
    requires Enabled(s, e) && (e.StartErase? || e.StartPurge?)
    ensures var s' := Next(s, e);
            && s' == s.(tasks := s'.tasks) && OthersStay(s, s', e.task) && e.task in s'.tasks
            && var task := s'.tasks[e.task];
               && task.person == (if e.StartErase? then Some(e.person) else None) && task.done == {}
               && |task.todo| == |e.list|
               && (forall i | 0 <= i < |e.list| ::
                     e.list[i] in s.rows && task.todo[i] == Loaded(e.list[i], s.rows[e.list[i]].cv))
               && (e.StartErase? ==> forall a | a in s.rows && s.rows[a].candidate == e.person ::
                     exists i :: 0 <= i < |task.todo| && task.todo[i].app == a)
  {
    var s' := Next(s, e);
    if e.StartErase? {
      forall i | 0 <= i < |e.list| ensures e.list[i] in RowsOf(s.rows, e.person) { assert e.list[i] in Members(e.list); }
      forall a | a in s.rows && s.rows[a].candidate == e.person
        ensures exists i :: 0 <= i < |e.list| && s'.tasks[e.task].todo[i].app == a
      {
        assert a in RowsOf(s.rows, e.person) && a in Members(e.list);
        var i :| 0 <= i < |e.list| && e.list[i] == a;
        assert s'.tasks[e.task].todo[i].app == a;
      }
    }
  }

  // ---------------------------------------------------------------- no object is stranded

  // The step took the last row that pointed to the object and left the object behind.
  predicate Strands(s: State, e: Event, k: Key)
    requires Enabled(s, e)
  {
    var s' := Next(s, e);
    k in s'.objects && Cites(s.rows, k) && !Cites(s'.rows, k)
  }

  // A row of the person that the task never loaded, because it was submitted after the list was read.
  predicate Missed(s: State, task: Task, a: AppId) {
    a in s.rows && task.person == Some(s.rows[a].candidate) && a !in task.done
  }

  // A row the task will delete whose object came back after the task deleted it.
  predicate Rewritten(s: State, task: Task, a: AppId) {
    a in s.rows && a in task.done && s.rows[a].cv.Some? && s.rows[a].cv.value in task.late
  }

  // A missed or rewritten row points to the object, and no row that stays does.
  predicate LeftBehind(s: State, task: Task, k: Key) {
    && (exists a | a in s.rows :: s.rows[a].cv == Some(k) && (Missed(s, task, a) || Rewritten(s, task, a)))
    && forall a | a in s.rows && s.rows[a].cv == Some(k) :: a in Vanishing(s.rows, task)
  }

  /** In every run of erasures, purges, submissions, uploads and sweeps, with storage errors and crashes anywhere,
      nothing but a commit strands an object; and a commit strands exactly the objects of applications that came in
      after the task read its list, and those written again after the task deleted them. */
  lemma StrandedExactly(events: seq<Event>, e: Event, k: Key)
    requires IsRun(EMPTY, events) && Enabled(After(EMPTY, events), e)
    ensures var s := After(EMPTY, events);
            Strands(s, e, k) <==> e.Commit? && k in s.objects && LeftBehind(s, s.tasks[e.task], k)
  {
    var s := After(EMPTY, events);
    RunKeepsInv(EMPTY, events);
    var s' := Next(s, e);
    if e.Commit? {
      CommitStrands(s, e.task, k);
    } else if Cites(s.rows, k) {
      var a :| a in s.rows && s.rows[a].cv == Some(k);
      assert a in s'.rows && s'.rows[a].cv == Some(k);
    }
  }

  lemma CommitStrands(s: State, t: TaskId, k: Key)
    requires Inv(s) && Enabled(s, Commit(t))
    ensures Strands(s, Commit(t), k) <==> k in s.objects && LeftBehind(s, s.tasks[t], k)
  {
    var s' := Next(s, Commit(t));
    var task := s.tasks[t];
    assert TaskOk(s, task);
    if Strands(s, Commit(t), k) {
      var a :| a in s.rows && s.rows[a].cv == Some(k);
      assert a !in s'.rows;
      assert Missed(s, task, a) || Rewritten(s, task, a);
      forall b | b in s.rows && s.rows[b].cv == Some(k) ensures b in Vanishing(s.rows, task) {
        assert b !in s'.rows;
      }
    }
  }

  // While the task runs nobody writes to one of these keys and the person does not apply.
  predicate Quiet(e: Event, t: TaskId, person: CandidateId, keys: set<Key>) {
    match e
    case Upload(k, _) => k !in keys
    case Submit(c, _, _) => c != person
    case StartErase(u, _, _) => u != t
    case StartPurge(u, _) => u != t
    case _ => true
  }

  // The task, if still there, knows every row of its person, and none of their keys was written since.
  predicate Complete(s: State, t: TaskId, person: CandidateId, keys: set<Key>) {
    t in s.tasks ==>
      var task := s.tasks[t];
      && task.person == Some(person)
      && task.late !! keys && KeysOf(s.rows, person) <= keys
      && (forall a | a in task.done && a in s.rows :: s.rows[a].candidate == person)
      && (forall i | 0 <= i < |task.todo| && task.todo[i].app in s.rows :: s.rows[task.todo[i].app].candidate == person)
      && (forall k | k in keys && k in s.objects :: KeyAhead(task, k))
      && forall a | a in RowsOf(s.rows, person) :: a in task.done || Ahead(task, a)
  }

  predicate KeyAhead(task: Task, k: Key) { exists i | 0 <= i < |task.todo| :: task.todo[i].cv == Some(k) }

  predicate Ahead(task: Task, a: AppId) { exists i | 0 <= i < |task.todo| :: task.todo[i].app == a }

  // Rows of known applications are what they were, and new ones are not the person's.
  predicate SameRows(s: State, s': State, person: CandidateId) {
    && (forall a | a in s'.rows && a in s.used :: a in s.rows && s'.rows[a] == s.rows[a])
    && (forall a | a in s'.rows && a !in s.rows :: s'.rows[a].candidate != person)
  }

  // The task stays as it is, but for uploads to other keys.
  lemma IdleKeepsComplete(s: State, s': State, t: TaskId, person: CandidateId, keys: set<Key>)
    requires s.rows.Keys <= s.used && SameRows(s, s', person)
    requires forall k | k in keys && k in s'.objects :: k in s.objects
    requires t in s.tasks && TaskOk(s, s.tasks[t]) && Complete(s, t, person, keys)
    requires t in s'.tasks && s'.tasks[t] == s.tasks[t].(late := s'.tasks[t].late) && s'.tasks[t].late !! keys
    ensures Complete(s', t, person, keys)
  {
    forall a | a in RowsOf(s'.rows, person) ensures a in s'.tasks[t].done || Ahead(s'.tasks[t], a) {
      assert a in RowsOf(s.rows, person);
      if a !in s.tasks[t].done { assert Ahead(s.tasks[t], a); }
    }
    forall k | k in KeysOf(s'.rows, person) ensures k in keys { assert k in KeysOf(s.rows, person); }
    forall k | k in keys && k in s'.objects ensures KeyAhead(s'.tasks[t], k) { assert KeyAhead(s.tasks[t], k); }
  }

  lemma EraseNextKeepsComplete(s: State, t: TaskId, outcome: Outcome, person: CandidateId, keys: set<Key>)
    requires Enabled(s, EraseNext(t, outcome)) && Complete(s, t, person, keys)
    ensures Complete(Next(s, EraseNext(t, outcome)), t, person, keys)
  {
    var s' := Next(s, EraseNext(t, outcome));
    if t in s'.tasks {
      var task, task' := s.tasks[t], s'.tasks[t];
      forall i | 0 <= i < |task'.todo| ensures task'.todo[i] == task.todo[i + 1] {}
      forall a | a in RowsOf(s'.rows, person) ensures a in task'.done || Ahead(task', a) {
        if a !in task.done {
          var i :| 0 <= i < |task.todo| && task.todo[i].app == a;
          if i > 0 { assert task'.todo[i - 1].app == a; }
        }
      }
      forall k | k in keys && k in s'.objects ensures KeyAhead(task', k) {
        assert KeyAhead(task, k);
        var i :| 0 <= i < |task.todo| && task.todo[i].cv == Some(k);
        assert i > 0 && task'.todo[i - 1].cv == Some(k);
      }
    }
  }

  lemma QuietStepKeepsComplete(s: State, e: Event, t: TaskId, person: CandidateId, keys: set<Key>)
    requires Inv(s) && Enabled(s, e) && Quiet(e, t, person, keys) && Complete(s, t, person, keys)
    ensures Complete(Next(s, e), t, person, keys)
  {
    var s' := Next(s, e);
    if e.EraseNext? && e.task == t {
      EraseNextKeepsComplete(s, t, e.outcome, person, keys);
    } else if t in s'.tasks {
      assert TaskOk(s, s.tasks[t]) && SameRows(s, s', person);
      IdleKeepsComplete(s, s', t, person, keys);
    }
  }

  lemma {:induction false} QuietRunKeepsComplete(s: State, events: seq<Event>, t: TaskId, person: CandidateId, keys: set<Key>)
    requires Inv(s) && IsRun(s, events) && Complete(s, t, person, keys)
    requires forall i | 0 <= i < |events| :: Quiet(events[i], t, person, keys)
    ensures Complete(After(s, events), t, person, keys)
    decreases |events|
  {
    if events != [] {
      StepKeepsInv(s, events[0]);
      QuietStepKeepsComplete(s, events[0], t, person, keys);
      QuietRunKeepsComplete(Next(s, events[0]), events[1..], t, person, keys);
    }
  }

  lemma {:induction false} RunsJoin(s: State, first: seq<Event>, second: seq<Event>)
    requires IsRun(s, first + second)
    ensures IsRun(s, first) && IsRun(After(s, first), second)
    ensures After(s, first + second) == After(After(s, first), second)
    decreases |first|
  {
    if first == [] {
      assert first + second == second;
    } else {
      assert (first + second)[1..] == first[1..] + second;
      RunsJoin(Next(s, first[0]), first[1..], second);
    }
  }

  // The task's state when it is about to commit.
  lemma QuietRunIsComplete(before: seq<Event>, t: TaskId, person: CandidateId, list: seq<AppId>, during: seq<Event>)
    requires IsRun(EMPTY, before + [StartErase(t, person, list)] + during)
    requires IsRun(EMPTY, before)
    requires forall i | 0 <= i < |during| :: Quiet(during[i], t, person, KeysOf(After(EMPTY, before).rows, person))
    ensures var s := After(EMPTY, before + [StartErase(t, person, list)] + during);
            Inv(s) && Complete(s, t, person, KeysOf(After(EMPTY, before).rows, person))
  {
    var start := StartErase(t, person, list);
    RunsJoin(EMPTY, before + [start], during);
    RunsJoin(EMPTY, before, [start]);
    var s0 := After(EMPTY, before);
    assert IsRun(s0, [start]);
    var s1 := Next(s0, start);
    assert After(s0, [start]) == s1;
    RunKeepsInv(EMPTY, before);
    StepKeepsInv(s0, start);
    StartIsComplete(s0, t, person, list);
    QuietRunKeepsComplete(s1, during, t, person, KeysOf(s0.rows, person));
    RunKeepsInv(s1, during);
  }

  /** A person who does not apply again, and whose files nobody writes again, while the erasure runs leaves nothing
      behind: whatever else went on before and meanwhile, the commit strands no object. */
  lemma QuietErasureStrandsNothing(before: seq<Event>, t: TaskId, person: CandidateId, list: seq<AppId>,
                                   during: seq<Event>, k: Key)
    requires IsRun(EMPTY, before + [StartErase(t, person, list)] + during)
    requires IsRun(EMPTY, before)
    requires forall i | 0 <= i < |during| :: Quiet(during[i], t, person, KeysOf(After(EMPTY, before).rows, person))
    requires Enabled(After(EMPTY, before + [StartErase(t, person, list)] + during), Commit(t))
    ensures !Strands(After(EMPTY, before + [StartErase(t, person, list)] + during), Commit(t), k)
  {
    QuietRunIsComplete(before, t, person, list, during);
    CompleteStrandsNothing(After(EMPTY, before + [StartErase(t, person, list)] + during), t, person,
                           KeysOf(After(EMPTY, before).rows, person), k);
  }

  /** And it ends with the person, every row of theirs and every object their rows pointed to gone, with everybody else
      submitting, uploading, erasing, purging, crashing and sweeping in between. What came before is any run, so this is
      the second try after any number of failed ones as well. */
  lemma CommittedErasureLeavesNothing(before: seq<Event>, t: TaskId, person: CandidateId, list: seq<AppId>, during: seq<Event>)
    requires IsRun(EMPTY, before + [StartErase(t, person, list)] + during)
    requires IsRun(EMPTY, before)
    requires forall i | 0 <= i < |during| :: Quiet(during[i], t, person, KeysOf(After(EMPTY, before).rows, person))
    requires Enabled(After(EMPTY, before + [StartErase(t, person, list)] + during), Commit(t))
    ensures var s := Next(After(EMPTY, before + [StartErase(t, person, list)] + during), Commit(t));
            && person !in s.candidates && RowsOf(s.rows, person) == {}
            && KeysOf(After(EMPTY, before).rows, person) !! s.objects.Keys
  {
    QuietRunIsComplete(before, t, person, list, during);
    CompleteLeavesNothing(After(EMPTY, before + [StartErase(t, person, list)] + during), t, person,
                          KeysOf(After(EMPTY, before).rows, person));
  }

  lemma CompleteLeavesNothing(s: State, t: TaskId, person: CandidateId, keys: set<Key>)
    requires Enabled(s, Commit(t)) && Complete(s, t, person, keys)
    ensures var s' := Next(s, Commit(t));
            person !in s'.candidates && RowsOf(s'.rows, person) == {} && keys !! s'.objects.Keys
  {
    forall k | k in keys ensures k !in s.objects {
      assert !KeyAhead(s.tasks[t], k);
    }
  }

  lemma CompleteStrandsNothing(s: State, t: TaskId, person: CandidateId, keys: set<Key>, k: Key)
    requires Inv(s) && Enabled(s, Commit(t)) && Complete(s, t, person, keys)
    ensures !Strands(s, Commit(t), k)
  {
    CommitStrands(s, t, k);
    var task := s.tasks[t];
    forall a | a in s.rows && s.rows[a].cv == Some(k) ensures !Missed(s, task, a) && !Rewritten(s, task, a) {
      if s.rows[a].candidate == person {
        assert a in RowsOf(s.rows, person) && !Ahead(task, a);
        assert k in KeysOf(s.rows, person);
      }
    }
  }

  lemma StartIsComplete(s: State, t: TaskId, person: CandidateId, list: seq<AppId>)
    requires Enabled(s, StartErase(t, person, list))
    ensures Complete(Next(s, StartErase(t, person, list)), t, person, KeysOf(s.rows, person))
  {
    var s' := Next(s, StartErase(t, person, list));
    var task := s'.tasks[t];
    forall i | 0 <= i < |list| ensures list[i] in RowsOf(s.rows, person) { assert list[i] in Members(list); }
    forall a | a in RowsOf(s'.rows, person) ensures Ahead(task, a) {
      assert a in Members(list);
      var i :| 0 <= i < |list| && list[i] == a;
      assert task.todo[i].app == a;
    }
    forall k | k in KeysOf(s.rows, person) ensures KeyAhead(task, k) {
      var a :| a in s.rows && s.rows[a].candidate == person && s.rows[a].cv == Some(k);
      assert a in RowsOf(s.rows, person) && a in Members(list);
      var i :| 0 <= i < |list| && list[i] == a;
      assert task.todo[i].cv == Some(k);
    }
  }

  lemma {:induction false} OneMore(s: State, events: seq<Event>, e: Event)
    requires IsRun(s, events) && Enabled(After(s, events), e)
    ensures IsRun(s, events + [e]) && After(s, events + [e]) == Next(After(s, events), e)
    decreases |events|
  {
    if events == [] {
      var s' := Next(s, e);
      assert [e][1..] == [];
      assert IsRun(s', []) && After(s', []) == s';
    } else {
      assert (events + [e])[1..] == events[1..] + [e];
      OneMore(Next(s, events[0]), events[1..], e);
    }
  }

  // One application on file and its erasure started.
  lemma FirstSteps(cv: Option<Key>, before: seq<Event>, s: State)
    requires IsRun(EMPTY, before) && s == After(EMPTY, before) && s == EMPTY.(objects := s.objects)
    ensures var events := before + [Submit(0, 0, cv)] + [StartErase(0, 0, [0])];
            && IsRun(EMPTY, events)
            && After(EMPTY, events) == State({0}, {0}, map[0 := Row(0, cv)], {0}, s.objects,
                                             map[0 := Task(Some(0), [Loaded(0, cv)], {}, {})], map[])
  {
    var list: seq<AppId> := [0];
    OneMore(EMPTY, before, Submit(0, 0, cv));
    var s1 := Next(s, Submit(0, 0, cv));
    assert Members(list) == {0} by { assert list[0] in list; }
    assert RowsOf(map[0 := Row(0, cv)], 0) == {0};
    OneMore(EMPTY, before + [Submit(0, 0, cv)], StartErase(0, 0, list));
    assert Load(s1.rows, list) == [Loaded(0, cv)];
  }

  lemma LateRowGoes(s: State, cv: Key)
    requires s == State({0}, {0}, map[0 := Row(0, None), 1 := Row(0, Some(cv))], {0, 1}, map[cv := 0],
                        map[0 := Task(Some(0), [Loaded(0, None)], {}, {cv})], map[])
    ensures Enabled(s, EraseNext(0, Removed))
    ensures var s' := Next(s, EraseNext(0, Removed)); Enabled(s', Commit(0)) && Strands(s', Commit(0), cv)
  {
    var s' := Next(s, EraseNext(0, Removed));
    assert s'.rows[1].cv == Some(cv);
    var s'' := Next(s', Commit(0));
    assert s''.rows.Keys == {};
  }

  // Uploads a CV and applies with it between the list and the commit.
  function LateApplication(cv: Key): seq<Event> {
    [] + [Submit(0, 0, None)] + [StartErase(0, 0, [0])] + [Upload(cv, 0)] + [Submit(0, 1, Some(cv))] + [EraseNext(0, Removed)]
  }

  /** The gap is real: a person who uploads a CV and applies again between the list and the commit loses the new row
      to the cascade, and the CV stays behind with nothing that refers to it. */
  lemma LateApplicationIsStranded(cv: Key)
    ensures IsRun(EMPTY, LateApplication(cv))
    ensures Enabled(After(EMPTY, LateApplication(cv)), Commit(0)) && Strands(After(EMPTY, LateApplication(cv)), Commit(0), cv)
  {
    FirstSteps(None, [], EMPTY);
    var events := [] + [Submit(0, 0, None)] + [StartErase(0, 0, [0])];
    OneMore(EMPTY, events, Upload(cv, 0));
    var s := Next(After(EMPTY, events), Upload(cv, 0));
    assert s.tasks == map[0 := Task(Some(0), [Loaded(0, None)], {}, {cv})] by { assert s.tasks[0].late == {cv}; }
    assert s.objects == map[cv := 0];
    OneMore(EMPTY, events + [Upload(cv, 0)], Submit(0, 1, Some(cv)));
    LateRowGoes(Next(s, Submit(0, 1, Some(cv))), cv);
    OneMore(EMPTY, events + [Upload(cv, 0)] + [Submit(0, 1, Some(cv))], EraseNext(0, Removed));
  }

  // Sends the same upload form a second time, after the erasure deleted the object.
  function SecondUpload(cv: Key): seq<Event> {
    [Upload(cv, 0)] + [Submit(0, 0, Some(cv))] + [StartErase(0, 0, [0])] + [EraseNext(0, Removed)] + [Upload(cv, 1)]
  }

  /** And so is the other: an upload form is good for ten minutes, so the object the erasure deleted can be written
      once more before the commit takes the row. */
  lemma SecondUploadIsStranded(cv: Key)
    ensures IsRun(EMPTY, SecondUpload(cv))
    ensures Enabled(After(EMPTY, SecondUpload(cv)), Commit(0)) && Strands(After(EMPTY, SecondUpload(cv)), Commit(0), cv)
  {
    OneMore(EMPTY, [], Upload(cv, 0));
    assert [] + [Upload(cv, 0)] == [Upload(cv, 0)];
    FirstSteps(Some(cv), [Upload(cv, 0)], EMPTY.(objects := map[cv := 0]));
    var events := [Upload(cv, 0)] + [Submit(0, 0, Some(cv))] + [StartErase(0, 0, [0])];
    OneMore(EMPTY, events, EraseNext(0, Removed));
    OneMore(EMPTY, events + [EraseNext(0, Removed)], Upload(cv, 1));
    var s := Next(After(EMPTY, events), EraseNext(0, Removed));
    assert s.tasks[0].late == {} && s.tasks[0].done == {0} && s.tasks[0].todo == [];
    assert s.objects == map[];
    RewrittenRowGoes(s, cv);
  }

  lemma RewrittenRowGoes(s: State, cv: Key)
    requires s == State({0}, {0}, map[0 := Row(0, Some(cv))], {0}, map[], map[0 := Task(Some(0), [], {0}, {})], map[])
    ensures var s' := Next(s, Upload(cv, 1)); Enabled(s', Commit(0)) && Strands(s', Commit(0), cv)
  {
    var s' := Next(s, Upload(cv, 1));
    assert s'.rows[0].cv == Some(cv);
    assert Next(s', Commit(0)).rows.Keys == {};
  }

  // ---------------------------------------------------------------- the nightly sweep

  predicate LeavesAlone(e: Event, k: Key) { !(e.Upload? && e.key == k) && !(e.Submit? && e.cv == Some(k)) }

  // Nobody points to the object, and it is gone or as old as it was.
  predicate Abandoned(s: State, k: Key, written: Instant) {
    !Cites(s.rows, k) && (k in s.objects ==> s.objects[k] == written)
  }

  lemma {:induction false} AbandonedStays(s: State, events: seq<Event>, k: Key, written: Instant)
    requires IsRun(s, events) && Abandoned(s, k, written)
    requires forall i | 0 <= i < |events| :: LeavesAlone(events[i], k)
    ensures Abandoned(After(s, events), k, written)
    decreases |events|
  {
    if events != [] {
      var s' := Next(s, events[0]);
      AbandonedStays(s', events[1..], k, written);
    }
  }

  // A sweep under way that will take the object, if it is still there.
  predicate SweepsAway(s: State, t: TaskId, k: Key, written: Instant) {
    && t in s.sweeps && Abandoned(s, k, written) && k !in s.sweeps[t].referenced
    && (s.sweeps[t].doomed.Some? && k in s.objects ==> k in s.sweeps[t].doomed.value)
  }

  // The sweep goes on, and lists the objects a day after this one was written.
  predicate SweepGoesOn(e: Event, t: TaskId, written: Instant) {
    match e
    case SweepList(u, now) => u == t ==> written + 86_400_000_000 < now
    case SweepDelete(u, _) => u != t
    case _ => true
  }

  lemma {:induction false} SweepsAwayStays(s: State, events: seq<Event>, t: TaskId, k: Key, written: Instant)
    requires IsRun(s, events) && SweepsAway(s, t, k, written)
    requires forall i | 0 <= i < |events| :: LeavesAlone(events[i], k) && SweepGoesOn(events[i], t, written)
    ensures SweepsAway(After(s, events), t, k, written)
    decreases |events|
  {
    if events != [] {
      AbandonedStays(s, [events[0]], k, written);
      assert After(s, [events[0]]) == Next(s, events[0]) by { assert [events[0]][1..] == []; }
      SweepsAwayStays(Next(s, events[0]), events[1..], t, k, written);
    }
  }

  /** A stranded object nobody writes or applies with again is gone after the first sweep that reads the rows behind
      the commit, lists the objects more than a day after it was written, and manages to delete it. */
  lemma StrandedIsSwept(s: State, e: Event, k: Key, before: seq<Event>, t: TaskId, during: seq<Event>, kept: set<Key>)
    requires Enabled(s, e) && Strands(s, e, k)
    requires IsRun(Next(s, e), before) && Enabled(After(Next(s, e), before), SweepRead(t))
    requires IsRun(Next(After(Next(s, e), before), SweepRead(t)), during)
    requires forall i | 0 <= i < |before| :: LeavesAlone(before[i], k)
    requires forall i | 0 <= i < |during| :: LeavesAlone(during[i], k) && SweepGoesOn(during[i], t, Next(s, e).objects[k])
    requires Enabled(After(Next(After(Next(s, e), before), SweepRead(t)), during), SweepDelete(t, kept)) && k !in kept
    ensures k !in Next(After(Next(After(Next(s, e), before), SweepRead(t)), during), SweepDelete(t, kept)).objects
  {
    var s1 := Next(s, e);
    AbandonedStays(s1, before, k, s1.objects[k]);
    var s2 := Next(After(s1, before), SweepRead(t));
    assert k !in CitedKeys(s2.rows);
    SweepsAwayStays(s2, during, t, k, s1.objects[k]);
  }

  /** A sweep takes an object from under a row only if the application came in after the sweep had read the rows. */
  lemma SweepSparesWhatItRead(events: seq<Event>, t: TaskId, kept: set<Key>, a: AppId, k: Key)
    requires IsRun(EMPTY, events) && Enabled(After(EMPTY, events), SweepDelete(t, kept))
    requires var s := After(EMPTY, events); a in s.rows && s.rows[a].cv == Some(k) && k in s.objects
    ensures var s := After(EMPTY, events);
            && (k !in Next(s, SweepDelete(t, kept)).objects <==> k in s.sweeps[t].doomed.value - kept)
            && (k in s.sweeps[t].doomed.value ==> a !in s.sweeps[t].known)
  {
    RunKeepsInv(EMPTY, events);
    var s := After(EMPTY, events);
    assert SweepOk(s, s.sweeps[t]);
  }

  // A day-old upload, used between the sweep's two looks.
  function LateUse(cv: Key): seq<Event> {
    [Upload(cv, 0)] + [SweepRead(0)] + [Submit(0, 0, Some(cv))] + [SweepList(0, 86_400_000_001)]
  }

  /** Which can happen: a person who takes more than a day to send the form, and does so during the sweep, has an
      application whose CV is gone. */
  lemma LateUseIsSwept(cv: Key)
    ensures IsRun(EMPTY, LateUse(cv))
    ensures var s := After(EMPTY, LateUse(cv));
            && Enabled(s, SweepDelete(0, {})) && 0 in s.rows && s.rows[0].cv == Some(cv) && cv in s.objects
            && cv !in Next(s, SweepDelete(0, {})).objects
  {
    OneMore(EMPTY, [], Upload(cv, 0));
    assert [] + [Upload(cv, 0)] == [Upload(cv, 0)];
    OneMore(EMPTY, [Upload(cv, 0)], SweepRead(0));
    OneMore(EMPTY, [Upload(cv, 0)] + [SweepRead(0)], Submit(0, 0, Some(cv)));
    var events := [Upload(cv, 0)] + [SweepRead(0)] + [Submit(0, 0, Some(cv))];
    OneMore(EMPTY, events, SweepList(0, 86_400_000_001));
    var s := After(EMPTY, events);
    assert CitedKeys(map[]) == {};
    assert s.objects == map[cv := 0] && s.sweeps[0].referenced == {};
  }

  // ---------------------------------------------------------------- running it again

  // The objects the person's rows point to.
  function KeysOf(rows: map<AppId, Row>, c: CandidateId): set<Key> {
    set a | a in rows && rows[a].candidate == c && rows[a].cv.Some? :: rows[a].cv.value
  }

  // The person, every row and every object gone, and nothing else touched.
  function Erased(s: State, c: CandidateId): State {
    s.(candidates := s.candidates - {c}, rows := s.rows - RowsOf(s.rows, c), objects := s.objects - KeysOf(s.rows, c))
  }

  // The keys of a loaded list.
  function KeysIn(list: seq<Loaded>): set<Key> {
    set i | 0 <= i < |list| && list[i].cv.Some? :: list[i].cv.value
  }

  function Ids(list: seq<Loaded>): set<AppId> {
    set i | 0 <= i < |list| :: list[i].app
  }

  lemma FirstOut(list: seq<Loaded>)
    requires list != []
    ensures Ids(list) == {list[0].app} + Ids(list[1..])
    ensures KeysIn(list) == KeysIn(list[1..]) + if list[0].cv.Some? then {list[0].cv.value} else {}
  {
    var rest := list[1..];
    forall i | 0 < i < |list| ensures list[i] == rest[i - 1] {}
    forall i | 0 <= i < |rest| ensures list[i + 1] == rest[i] {}
  }

  function AllWell(t: TaskId, n: nat): (events: seq<Event>) { seq(n, i => EraseNext(t, Removed)) }

  // With no error every loaded object goes and every loaded row is staged.
  lemma {:induction false} AllWellRuns(s: State, t: TaskId)
    requires t in s.tasks
    ensures var task := s.tasks[t]; var events := AllWell(t, |task.todo|);
            && IsRun(s, events)
            && var s' := After(s, events);
               && t in s'.tasks && s'.tasks[t].todo == [] && s'.tasks[t].person == task.person
               && s'.tasks[t].done == task.done + Ids(task.todo)
               && s'.objects == s.objects - KeysIn(task.todo)
               && s' == s.(objects := s'.objects, tasks := s.tasks[t := s'.tasks[t]])
    decreases |s.tasks[t].todo|
  {
    var todo := s.tasks[t].todo;
    var events := AllWell(t, |todo|);
    if todo == [] {
      assert s.tasks == s.tasks[t := s.tasks[t]];
    } else {
      var s1 := Next(s, EraseNext(t, Removed));
      assert events[1..] == AllWell(t, |todo| - 1);
      FirstOut(todo);
      AllWellRuns(s1, t);
    }
  }

  lemma LoadedIsTheirs(rows: map<AppId, Row>, c: CandidateId, list: seq<AppId>)
    requires Members(list) == RowsOf(rows, c)
    requires forall i | 0 <= i < |list| :: list[i] in rows
    ensures Ids(Load(rows, list)) == RowsOf(rows, c) && KeysIn(Load(rows, list)) == KeysOf(rows, c)
  {
    var loaded := Load(rows, list);
    forall i | 0 <= i < |list| ensures list[i] in RowsOf(rows, c) { assert list[i] in Members(list); }
    forall a | a in RowsOf(rows, c) ensures exists i | 0 <= i < |loaded| :: loaded[i] == Loaded(a, rows[a].cv) {
      assert a in Members(list);
      var i :| 0 <= i < |list| && list[i] == a;
      assert loaded[i] == Loaded(a, rows[a].cv);
    }
    forall k | k in KeysOf(rows, c) ensures k in KeysIn(loaded) {
      var a :| a in rows && rows[a].candidate == c && rows[a].cv == Some(k);
      assert a in RowsOf(rows, c);
    }
    forall k | k in KeysIn(loaded) ensures k in KeysOf(rows, c) {
      var i :| 0 <= i < |loaded| && loaded[i].cv == Some(k);
      assert list[i] in RowsOf(rows, c);
    }
  }

  /** From any state in which the person is still known, an erasure that meets no error ends with the person, every
      row and every object of theirs gone, and changes nothing else. */
  lemma ErasureErases(s: State, t: TaskId, c: CandidateId, list: seq<AppId>)
    requires Enabled(s, StartErase(t, c, list))
    ensures var s1 := Next(s, StartErase(t, c, list));
            && IsRun(s1, AllWell(t, |list|))
            && Enabled(After(s1, AllWell(t, |list|)), Commit(t))
            && Next(After(s1, AllWell(t, |list|)), Commit(t)) == Erased(s, c)
  {
    var s1 := Next(s, StartErase(t, c, list));
    forall i | 0 <= i < |list| ensures list[i] in RowsOf(s.rows, c) { assert list[i] in Members(list); }
    LoadedIsTheirs(s.rows, c, list);
    AllWellRuns(s1, t);
    var s2 := After(s1, AllWell(t, |list|));
    assert s2.tasks[t].done == RowsOf(s.rows, c);
    assert Vanishing(s.rows, s2.tasks[t]) == RowsOf(s.rows, c);
    assert Next(s2, Commit(t)).tasks == s.tasks;
  }

  // What an erasure that stopped early left: the same rows, and some objects of the person gone.
  predicate StoppedEarly(s: State, s': State, c: CandidateId) {
    && s' == s.(objects := s'.objects)
    && s'.objects.Keys <= s.objects.Keys
    && (forall k | k in s.objects && k !in s'.objects :: k in KeysOf(s.rows, c))
    && (forall k | k in s'.objects :: s'.objects[k] == s.objects[k])
  }

  // s is reached from s1, the start of the task, by i erasures without an error; s0 is the state before.
  ghost predicate Midway(s0: State, s1: State, s: State, t: TaskId, c: CandidateId, i: nat) {
    && t in s1.tasks && t in s.tasks && t !in s0.tasks
    && IsRun(s1, AllWell(t, i)) && s == After(s1, AllWell(t, i))
    && i <= |s1.tasks[t].todo| && s.tasks[t].todo == s1.tasks[t].todo[i..]
    && s.tasks[t].person == Some(c) && s.tasks - {t} == s0.tasks
    && StoppedEarly(s0, s.(tasks := s0.tasks), c)
    && KeysIn(s.tasks[t].todo) <= KeysOf(s0.rows, c)
  }

  lemma MidwayStarts(s0: State, t: TaskId, c: CandidateId, list: seq<AppId>)
    requires Enabled(s0, StartErase(t, c, list))
    ensures var s1 := Next(s0, StartErase(t, c, list));
            Midway(s0, s1, s1, t, c, 0) && |s1.tasks[t].todo| == |list|
  {
    var s1 := Next(s0, StartErase(t, c, list));
    forall i | 0 <= i < |list| ensures list[i] in RowsOf(s0.rows, c) { assert list[i] in Members(list); }
    LoadedIsTheirs(s0.rows, c, list);
    assert s1.tasks - {t} == s0.tasks;
  }

  lemma MidwaySteps(s0: State, s1: State, s: State, t: TaskId, c: CandidateId, i: nat, outcome: Outcome)
    requires Midway(s0, s1, s, t, c, i) && Enabled(s, EraseNext(t, outcome))
    ensures var s' := Next(s, EraseNext(t, outcome));
            if outcome == Removed
            then Midway(s0, s1, s', t, c, i + 1) && t in s'.tasks && |s'.tasks[t].todo| < |s.tasks[t].todo|
            else StoppedEarly(s0, s', c)
  {
    var s' := Next(s, EraseNext(t, outcome));
    FirstOut(s.tasks[t].todo);
    if outcome == Removed {
      OneMore(s1, AllWell(t, i), EraseNext(t, Removed));
      assert AllWell(t, i) + [EraseNext(t, Removed)] == AllWell(t, i + 1);
      assert s'.tasks - {t} == s0.tasks;
    } else {
      assert s'.tasks == s0.tasks;
    }
  }

  lemma MidwayEnds(s0: State, s1: State, s: State, t: TaskId, c: CandidateId, i: nat, list: seq<AppId>)
    requires Enabled(s0, StartErase(t, c, list)) && s1 == Next(s0, StartErase(t, c, list))
    requires Midway(s0, s1, s, t, c, i) && s.tasks[t].todo == []
    ensures Enabled(s, Commit(t)) && Next(s, Commit(t)) == Erased(s0, c)
  {
    hide Next, Enabled, Erased, After, IsRun;
    MidwayStarts(s0, t, c, list);
    ErasureErases(s0, t, c, list);
  }

  // As long as it goes well a task gets to every place of its list.
  lemma {:induction false} GetsTo(s0: State, t: TaskId, c: CandidateId, list: seq<AppId>, i: nat)
    requires Enabled(s0, StartErase(t, c, list)) && i <= |list|
    ensures var s1 := Next(s0, StartErase(t, c, list));
            && IsRun(s1, AllWell(t, i)) && Midway(s0, s1, After(s1, AllWell(t, i)), t, c, i)
            && |s1.tasks[t].todo| == |list|
  {
    MidwayStarts(s0, t, c, list);
    if i > 0 {
      GetsTo(s0, t, c, list, i - 1);
      var s1 := Next(s0, StartErase(t, c, list));
      MidwaySteps(s0, s1, After(s1, AllWell(t, i - 1)), t, c, i - 1, Removed);
    }
  }

  // How a task ends before its commit: the process dies, or a deletion raises.
  predicate Stops(e: Event, t: TaskId) {
    match e
    case Crash(u) => u == t
    case EraseNext(u, outcome) => u == t && outcome != Removed
    case _ => false
  }

  lemma StopLeaves(s0: State, s1: State, s: State, t: TaskId, c: CandidateId, i: nat, stop: Event)
    requires Midway(s0, s1, s, t, c, i) && Stops(stop, t) && Enabled(s, stop)
    ensures StoppedEarly(s0, Next(s, stop), c)
  {
    if stop.EraseNext? { MidwaySteps(s0, s1, s, t, c, i, stop.outcome); }
  }

  lemma Interrupted(s: State, t: TaskId, c: CandidateId, list: seq<AppId>, i: nat, stop: Event)
    requires Enabled(s, StartErase(t, c, list)) && i <= |list| && Stops(stop, t)
    requires IsRun(Next(s, StartErase(t, c, list)), AllWell(t, i) + [stop])
    ensures StoppedEarly(s, After(Next(s, StartErase(t, c, list)), AllWell(t, i) + [stop]), c)
  {
    var s1 := Next(s, StartErase(t, c, list));
    GetsTo(s, t, c, list, i);
    RunsJoin(s1, AllWell(t, i), [stop]);
    var mid := After(s1, AllWell(t, i));
    assert IsRun(mid, [stop]);
    assert After(mid, [stop]) == Next(mid, stop);
    StopLeaves(s, s1, mid, t, c, i, stop);
  }

  lemma ErasedTheSame(s: State, s': State, c: CandidateId)
    requires StoppedEarly(s, s', c)
    ensures Erased(s', c) == Erased(s, c)
  {
    assert (s'.objects - KeysOf(s'.rows, c)) == (s.objects - KeysOf(s.rows, c));
  }

  /** An erasure that any number of applications in meets a crash or a storage error leaves every row in place, and
      erasing again from there ends exactly where a first try without the trouble would have ended. */
  lemma SecondTryFinishes(s: State, t: TaskId, c: CandidateId, list: seq<AppId>, i: nat, stop: Event,
                          u: TaskId, again: seq<AppId>)
    requires Enabled(s, StartErase(t, c, list)) && i <= |list| && Stops(stop, t)
    requires IsRun(Next(s, StartErase(t, c, list)), AllWell(t, i) + [stop])
    requires Enabled(After(Next(s, StartErase(t, c, list)), AllWell(t, i) + [stop]), StartErase(u, c, again))
    ensures var s' := After(Next(s, StartErase(t, c, list)), AllWell(t, i) + [stop]);
            var s'' := Next(s', StartErase(u, c, again));
            && s'.rows == s.rows && s'.candidates == s.candidates
            && IsRun(s'', AllWell(u, |again|)) && Enabled(After(s'', AllWell(u, |again|)), Commit(u))
            && Next(After(s'', AllWell(u, |again|)), Commit(u)) == Erased(s, c)
  {
    hide Next, Enabled, IsRun, After, Erased, AllWell, Stops;
    var s' := After(Next(s, StartErase(t, c, list)), AllWell(t, i) + [stop]);
    Interrupted(s, t, c, list, i, stop);
    ErasureErases(s', u, c, again);
    ErasedTheSame(s, s', c);
  }
}
