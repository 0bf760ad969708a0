/**
 The code that erases, over the two stores: each of the first methods is one event of module Erasure, and the
 two loops run them with nobody else about.
 */
module ErasureService {
  import opened Basics
  import opened Pipeline
  import opened Erasure

  datatype Erasing = NotFound | Failed | Done(applications: nat, cvObjects: nat)

  // What the storage does with the i-th deletion; no entry means it works.
  function FaultAt(faults: seq<Outcome>, i: nat, cv: Option<Key>): Outcome {
    if i < |faults| && cv.Some? then faults[i] else Removed
  }

  // The applications of a list that have an object.
  function WithObject(list: seq<Loaded>): nat {
    if list == [] then 0 else (if list[0].cv.Some? then 1 else 0) + WithObject(list[1..])
  }

  // What a purge does: a row goes only after its object went and all rows without an error go; persons without a
  // row go, and the rest stays.
  predicate Purged(s: State, s': State, expired: seq<AppId>, faults: seq<Outcome>)
    requires forall i | 0 <= i < |expired| :: expired[i] in s.rows
  {
    && s'.tasks == s.tasks && s'.sweeps == s.sweeps && s'.used == s.used && s'.met == s.met
    && s'.rows.Keys <= s.rows.Keys && (forall a | a in s'.rows :: s'.rows[a] == s.rows[a])
    && (forall a | a in s.rows && a !in s'.rows ::
          a in expired && (s.rows[a].cv.Some? ==> s.rows[a].cv.value !in s'.objects))
    && (forall i | 0 <= i < |expired| && FaultAt(faults, i, s.rows[expired[i]].cv) == Removed :: expired[i] !in s'.rows)
    && s'.candidates == set c | c in s.candidates && RowsOf(s'.rows, c) != {}
  }

  class Stores {
    var candidates: set<CandidateId>
    var met: set<CandidateId>
    var rows: map<AppId, Row>
    var used: set<AppId>
    var objects: map<Key, Instant>
    var tasks: map<TaskId, Task>
    var sweeps: map<TaskId, Sweeping>

    ghost function Value(): State
      reads this
    {
      State(candidates, met, rows, used, objects, tasks, sweeps)
    }

    // The select of a person's applications, in no particular order.
    method ListApplications(c: CandidateId) returns (list: seq<AppId>)
      ensures Distinct(list) && Members(list) == RowsOf(rows, c)
    {
      list := [];
      var left := RowsOf(rows, c);
      while left != {}
        invariant Distinct(list) && left !! Members(list) && Members(list) + left == RowsOf(rows, c)
        decreases |left|
      {
        var a :| a in left;
        MembersGrow(list, a);
        list, left := list + [a], left - {a};
      }
    }

    method StartErasing(t: TaskId, c: CandidateId) returns (ghost list: seq<AppId>)
      requires t !in tasks && c in candidates
      modifies this
      ensures Enabled(old(Value()), StartErase(t, c, list))
      ensures Value() == Next(old(Value()), StartErase(t, c, list))
    {
      var found := ListApplications(c);
      forall i | 0 <= i < |found| ensures found[i] in RowsOf(rows, c) { assert found[i] in Members(found); }
      tasks := tasks[t := Task(Some(c), Load(rows, found), {}, {})];
      list := found;
    }

    method StartPurging(t: TaskId, expired: seq<AppId>)
      requires Enabled(Value(), StartPurge(t, expired))
      modifies this
      ensures Value() == Next(old(Value()), StartPurge(t, expired))
    {
      tasks := tasks[t := Task(None, Load(rows, expired), {}, {})];
    }

    // One application: its object first, then the staged delete; false when the storage raised.
    method EraseApplication(t: TaskId, outcome: Outcome) returns (ok: bool)
      requires Enabled(Value(), EraseNext(t, outcome))
      modifies this
      ensures Value() == Next(old(Value()), EraseNext(t, outcome))
      ensures ok <==> outcome == Removed
    {
      var task := tasks[t];
      var application := task.todo[0];
      if application.cv.Some? && outcome != RaisedBefore {
        objects := objects - {application.cv.value};
      }
      ok := outcome == Removed;
      if ok {
        var late := if application.cv.Some? then task.late - {application.cv.value} else task.late;
        tasks := tasks[t := task.(todo := task.todo[1..], done := task.done + {application.app}, late := late)];
      } else if task.person.Some? {
        tasks := tasks - {t};
      } else {
        tasks := tasks[t := task.(todo := task.todo[1..])];
      }
    }

    // The staged deletes, the person or the persons left without an application, and the commit.
    method CommitErasure(t: TaskId)
      requires Enabled(Value(), Commit(t))
      modifies this
      ensures Value() == Next(old(Value()), Commit(t))
    {
      var task := tasks[t];
      rows := rows - Vanishing(rows, task);
      if task.person.Some? {
        candidates := candidates - {task.person.value};
      } else {
        candidates := candidates - (set c | c in candidates && RowsOf(rows, c) == {});
      }
      tasks := tasks - {t};
    }

    // The orphan sweep in its three looks: the keys in the rows, the objects, and the deletion.
    method ReadReferences(t: TaskId)
      requires Enabled(Value(), SweepRead(t))
      modifies this
      ensures Value() == Next(old(Value()), SweepRead(t))
    {
      sweeps := sweeps[t := Sweeping(used, CitedKeys(rows), None)];
    }

    method ListObjects(t: TaskId, now: Instant)
      requires Enabled(Value(), SweepList(t, now))
      modifies this
      ensures Value() == Next(old(Value()), SweepList(t, now))
    {
      sweeps := sweeps[t := sweeps[t].(doomed := Some(Orphans(objects, sweeps[t].referenced, now)))];
    }

    method DeleteOrphans(t: TaskId, kept: set<Key>)
      requires Enabled(Value(), SweepDelete(t, kept))
      modifies this
      ensures Value() == Next(old(Value()), SweepDelete(t, kept))
    {
      objects := objects - (sweeps[t].doomed.value - kept);
      sweeps := sweeps - {t};
    }

    /** A whole sweep with nobody else about: exactly the unreferenced objects older than a day go, except those the
        storage fails to delete. */
    method SweepOrphans(t: TaskId, now: Instant, kept: set<Key>) returns (swept: nat)
      requires t !in sweeps
      modifies this
      ensures Swept(old(Value()), Value(), now, kept)
      ensures swept == |old(objects).Keys - objects.Keys|
    {
      ghost var s := Value();
      WholeSweep(s, t, now, kept);
      hide Next, Enabled, Swept, Orphans, CitedKeys;
      ReadReferences(t);
      ListObjects(t, now);
      var orphans := sweeps[t].doomed.value;
      swept := |orphans - kept|;
      DeleteOrphans(t, kept);
    }

    /** A whole erasure with nobody else about: an unknown person changes nothing; an error leaves every row, the
        person and all foreign objects; otherwise the person is gone from both stores and nothing else changed. */
    method EraseCandidate(t: TaskId, c: CandidateId, faults: seq<Outcome>) returns (result: Erasing)
      requires t !in tasks
      modifies this
      ensures result == NotFound <==> c !in old(candidates)
      ensures result == NotFound ==> Value() == old(Value())
      ensures result.Done? ==> Value() == Erased(old(Value()), c) && result.applications == |RowsOf(old(rows), c)|
      ensures result.Done? ==> result.cvObjects == |Having(old(rows), RowsOf(old(rows), c))|
      ensures result == Failed ==> StoppedEarly(old(Value()), Value(), c)
      ensures (forall i | 0 <= i < |faults| :: faults[i] == Removed) ==> result != Failed
    {
      if c !in candidates {
        return NotFound;
      }
      hide Next, Midway, StoppedEarly, Erased, Enabled;
      ghost var s0 := Value();
      ghost var list := StartErasing(t, c);
      ghost var s1 := Value();
      LoadsAndCounts(s0, t, c, list);
      var applications, cvObjects := |tasks[t].todo|, WithObject(tasks[t].todo);
      var i := 0;
      while tasks[t].todo != []
        invariant t in tasks && Midway(s0, s1, Value(), t, c, i)
        decreases |tasks[t].todo|
      {
        var outcome := FaultAt(faults, i, tasks[t].todo[0].cv);
        MidwaySteps(s0, s1, Value(), t, c, i, outcome);
        var ok := EraseApplication(t, outcome);
        if !ok {
          return Failed;
        }
        i := i + 1;
      }
      MidwayEnds(s0, s1, Value(), t, c, i, list);
      CommitErasure(t);
      result := Erasing.Done(applications, cvObjects);
    }

    /** The purge of one company's expired applications with nobody else about. */
    method PurgeCompany(t: TaskId, expired: seq<AppId>, faults: seq<Outcome>) returns (purged: nat)
      requires Enabled(Value(), StartPurge(t, expired))
      modifies this
      ensures Purged(old(Value()), Value(), expired, faults)
      ensures purged == |old(rows).Keys - rows.Keys|
    {
      hide Next, Purging, Enabled;
      ghost var s0 := Value();
      StartPurging(t, expired);
      PurgingStarts(s0, t, expired, faults);
      purged := 0;
      var i := 0;
      while tasks[t].todo != []
        invariant t in tasks && Purging(s0, Value(), t, expired, faults, i) && purged == |tasks[t].done|
        decreases |tasks[t].todo|
      {
        var outcome := FaultAt(faults, i, tasks[t].todo[0].cv);
        PurgingSteps(s0, Value(), t, expired, faults, i);
        var ok := EraseApplication(t, outcome);
        if ok {
          purged := purged + 1;
        }
        i := i + 1;
      }
      PurgingEnds(s0, Value(), t, expired, faults, i);
      CommitErasure(t);
    }
  }

  lemma LoadsAndCounts(s: State, t: TaskId, c: CandidateId, list: seq<AppId>)
    requires Enabled(s, StartErase(t, c, list))
    ensures var s1 := Next(s, StartErase(t, c, list));
            && Midway(s, s1, s1, t, c, 0)
            && t in s1.tasks && |s1.tasks[t].todo| == |RowsOf(s.rows, c)|
            && WithObject(s1.tasks[t].todo) == |Having(s.rows, RowsOf(s.rows, c))|
  {
    forall i | 0 <= i < |list| ensures list[i] in RowsOf(s.rows, c) { assert list[i] in Members(list); }
    MidwayStarts(s, t, c, list);
    DistinctCount(list);
    ObjectsCounted(s.rows, list);
  }

  // ---------------------------------------------------------------- the loop of the purge

  // i expired applications are behind: the staged ones have lost their object, and only a raise left one unstaged.
  ghost predicate Purging(s0: State, s: State, t: TaskId, expired: seq<AppId>, faults: seq<Outcome>, i: nat) {
    && Enabled(s0, StartPurge(t, expired))
    && t in s.tasks && s.tasks[t].person == None && s.tasks - {t} == s0.tasks
    && s == s0.(objects := s.objects, tasks := s.tasks)
    && i <= |expired| && s.tasks[t].todo == Load(s0.rows, expired)[i..]
    && Settled(s0.rows, s.objects, s.tasks[t].done, expired, faults, i)
  }

  predicate Settled(rows: map<AppId, Row>, objects: map<Key, Instant>, done: set<AppId>, expired: seq<AppId>,
                    faults: seq<Outcome>, i: nat)
    requires i <= |expired| && forall j | 0 <= j < |expired| :: expired[j] in rows
  {
    && (forall a | a in done :: a in expired[..i] && (rows[a].cv.Some? ==> rows[a].cv.value !in objects))
    && (forall j | 0 <= j < i && FaultAt(faults, j, rows[expired[j]].cv) == Removed :: expired[j] in done)
  }

  lemma OneMoreSettled(rows: map<AppId, Row>, objects: map<Key, Instant>, done: set<AppId>, expired: seq<AppId>,
                       faults: seq<Outcome>, i: nat, objects': map<Key, Instant>)
    requires i < |expired| && Distinct(expired) && forall j | 0 <= j < |expired| :: expired[j] in rows
    requires Settled(rows, objects, done, expired, faults, i)
    requires var cv := rows[expired[i]].cv;
             && objects'.Keys <= objects.Keys
             && (FaultAt(faults, i, cv) == Removed && cv.Some? ==> cv.value !in objects')
    ensures var done' := done + if FaultAt(faults, i, rows[expired[i]].cv) == Removed then {expired[i]} else {};
            && Settled(rows, objects', done', expired, faults, i + 1)
            && expired[i] !in done
  {
    hide FaultAt;
    assert expired[i] !in expired[..i];
    assert expired[..i + 1] == expired[..i] + [expired[i]];
  }

  lemma PurgingStarts(s: State, t: TaskId, expired: seq<AppId>, faults: seq<Outcome>)
    requires Enabled(s, StartPurge(t, expired))
    ensures var s' := Next(s, StartPurge(t, expired));
            t in s'.tasks && Purging(s, s', t, expired, faults, 0) && s'.tasks[t].done == {}
  {
    assert Next(s, StartPurge(t, expired)).tasks - {t} == s.tasks;
  }

  lemma PurgingSteps(s0: State, s: State, t: TaskId, expired: seq<AppId>, faults: seq<Outcome>, i: nat)
    requires Purging(s0, s, t, expired, faults, i) && s.tasks[t].todo != []
    ensures var outcome := FaultAt(faults, i, s.tasks[t].todo[0].cv);
            && Enabled(s, EraseNext(t, outcome))
            && var s' := Next(s, EraseNext(t, outcome));
               && t in s'.tasks && Purging(s0, s', t, expired, faults, i + 1)
               && |s'.tasks[t].todo| < |s.tasks[t].todo|
               && |s'.tasks[t].done| == |s.tasks[t].done| + if outcome == Removed then 1 else 0
  {
    hide Settled, Distinct, RowsOf, Cites;
    assert s.tasks[t].todo[0] == Loaded(expired[i], s0.rows[expired[i]].cv);
    var outcome := FaultAt(faults, i, s0.rows[expired[i]].cv);
    var s' := Next(s, EraseNext(t, outcome));
    OneMoreSettled(s0.rows, s.objects, s.tasks[t].done, expired, faults, i, s'.objects);
    assert s'.tasks - {t} == s0.tasks;
    assert s'.tasks[t].done == s.tasks[t].done + if outcome == Removed then {expired[i]} else {};
  }

  lemma PurgingEnds(s0: State, s: State, t: TaskId, expired: seq<AppId>, faults: seq<Outcome>, i: nat)
    requires Purging(s0, s, t, expired, faults, i) && s.tasks[t].todo == []
    ensures Enabled(s, Commit(t)) && Purged(s0, Next(s, Commit(t)), expired, faults)
    ensures |s0.rows.Keys - Next(s, Commit(t)).rows.Keys| == |s.tasks[t].done|
  {
    var s' := Next(s, Commit(t));
    assert Vanishing(s.rows, s.tasks[t]) == s.tasks[t].done;
    assert s0.rows.Keys - s'.rows.Keys == s.tasks[t].done;
  }

  // What a sweep with nobody else about does.
  predicate Swept(s: State, s': State, now: Instant, kept: set<Key>) {
    && s' == s.(objects := s'.objects) && s'.objects.Keys <= s.objects.Keys
    && forall k | k in s.objects ::
         if !Cites(s.rows, k) && s.objects[k] + 86_400_000_000 < now && k !in kept
         then k !in s'.objects else k in s'.objects && s'.objects[k] == s.objects[k]
  }

  lemma CitedKeysAre(rows: map<AppId, Row>, k: Key)
    ensures k in CitedKeys(rows) <==> Cites(rows, k)
  {
    if Cites(rows, k) {
      var a :| a in rows && rows[a].cv == Some(k);
      assert rows[a].cv.value in CitedKeys(rows);
    }
  }

  lemma WholeSweep(s: State, t: TaskId, now: Instant, kept: set<Key>)
    requires t !in s.sweeps
    ensures Enabled(s, SweepRead(t))
    ensures var s1 := Next(s, SweepRead(t));
            && Enabled(s1, SweepList(t, now))
            && var s2 := Next(s1, SweepList(t, now));
               && Enabled(s2, SweepDelete(t, kept)) && t in s2.sweeps && s2.sweeps[t].doomed.Some?
               && var s3 := Next(s2, SweepDelete(t, kept));
                  && Swept(s, s3, now, kept)
                  && s.objects.Keys - s3.objects.Keys == s2.sweeps[t].doomed.value - kept
  {
    var s2 := Next(Next(s, SweepRead(t)), SweepList(t, now));
    var s3 := Next(s2, SweepDelete(t, kept));
    assert s3.sweeps == s.sweeps;
    var orphans := Orphans(s.objects, CitedKeys(s.rows), now);
    assert s3.objects == s.objects - (orphans - kept);
    forall k | k in s.objects ensures k in orphans <==> !Cites(s.rows, k) && s.objects[k] < now - UPLOAD_GRACE {
      CitedKeysAre(s.rows, k);
    }
    hide Cites, CitedKeys;
    assert s.objects.Keys - s3.objects.Keys == orphans - kept;
  }

  lemma MembersGrow(list: seq<AppId>, a: AppId)
    requires Distinct(list) && a !in Members(list)
    ensures Distinct(list + [a]) && Members(list + [a]) == Members(list) + {a}
  {
    forall i | 0 <= i < |list| ensures list[i] in Members(list) {}
  }

  lemma MembersFirst(list: seq<AppId>)
    requires Distinct(list) && list != []
    ensures Distinct(list[1..]) && list[0] !in Members(list[1..])
    ensures Members(list) == Members(list[1..]) + {list[0]}
  {
    var rest := list[1..];
    forall i | 0 <= i < |rest| ensures rest[i] == list[i + 1] {}
    forall a | a in list ensures a == list[0] || a in rest {
      var i :| 0 <= i < |list| && list[i] == a;
      if i > 0 { assert rest[i - 1] == a; }
    }
  }

  // A list without repeats has as many entries as it names rows.
  lemma {:induction false} DistinctCount(list: seq<AppId>)
    requires Distinct(list)
    ensures |Members(list)| == |list|
  {
    if list != [] {
      MembersFirst(list);
      DistinctCount(list[1..]);
    }
  }

  // The listed rows that have an object.
  function Having(rows: map<AppId, Row>, ids: set<AppId>): set<AppId> {
    set a | a in ids && a in rows && rows[a].cv.Some?
  }

  // The count of objects is the number of the listed rows that have one.
  lemma {:induction false} ObjectsCounted(rows: map<AppId, Row>, list: seq<AppId>)
    requires Distinct(list) && forall i | 0 <= i < |list| :: list[i] in rows
    ensures WithObject(Load(rows, list)) == |Having(rows, Members(list))|
  {
    if list == [] {
      assert Having(rows, Members(list)) == {};
    } else {
      var rest := list[1..];
      MembersFirst(list);
      LoadRest(rows, list);
      HavingGrows(rows, Members(rest), list[0]);
      hide Members, Having, Load, Distinct;
      ObjectsCounted(rows, rest);
    }
  }

  lemma LoadRest(rows: map<AppId, Row>, list: seq<AppId>)
    requires list != [] && forall i | 0 <= i < |list| :: list[i] in rows
    ensures Load(rows, list)[0] == Loaded(list[0], rows[list[0]].cv) && Load(rows, list)[1..] == Load(rows, list[1..])
    ensures forall i | 0 <= i < |list[1..]| :: list[1..][i] in rows
  {
  }

  lemma HavingGrows(rows: map<AppId, Row>, ids: set<AppId>, a: AppId)
    requires a in rows && a !in ids
    ensures |Having(rows, ids + {a})| == |Having(rows, ids)| + if rows[a].cv.Some? then 1 else 0
  {
    assert Having(rows, ids + {a}) == Having(rows, ids) + if rows[a].cv.Some? then {a} else {};
  }
}
