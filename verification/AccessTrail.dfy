/**
 The read-access trail of services/access_log.py: one row per actor, applicant and action inside the collapse
 window. Reads run one after the other, and a row is dated with the clock the read compared against.
 */
module AccessTrail {
  import opened Basics

  const COLLAPSE_WINDOW := 10 * MINUTE

  // A detail-level read; at most one of user and API key is its actor, the user first.
  datatype Read = Read(time: Instant, company: nat, application: nat, action: string,
                       user: Option<nat>, apiKey: Option<nat>)

  // A row of the trail is the read it records.
  type Row = Read

  // The same thing done to the same applicant.
  predicate SameSubject(a: Read, b: Read) {
    a.company == b.company && a.application == b.application && a.action == b.action
  }

  // The actor condition of the query.
  predicate ActorMatches(row: Row, read: Read) {
    if read.user.Some? then row.user == read.user
    else if read.apiKey.Some? then row.apiKey == read.apiKey
    else true
  }

  predicate Collapses(row: Row, read: Read) {
    SameSubject(row, read) && read.time - COLLAPSE_WINDOW <= row.time && ActorMatches(row, read)
  }

  predicate IsRecent(rows: seq<Row>, read: Read) {
    exists i | 0 <= i < |rows| :: Collapses(rows[i], read)
  }

  function Recorded(rows: seq<Row>, read: Read): seq<Row> {
    if IsRecent(rows, read) then rows else rows + [read]
  }

  function Trail(history: seq<Read>): seq<Row>
    decreases |history|
  {
    if history == [] then [] else Recorded(Trail(history[..|history| - 1]), history[|history| - 1])
  }

  predicate Ordered(history: seq<Read>) { forall i, j | 0 <= i < j < |history| :: history[i].time <= history[j].time }

  // Rows of one actor, applicant and action.
  predicate SameKey(a: Row, b: Row) {
    SameSubject(a, b) && a.user == b.user && (a.user == None ==> a.apiKey == b.apiKey)
  }

  // What a row has to be to stand for a read: the same thing done to the same applicant of the same company, by the same
  // user, or for a read by an API key alone by the same key.
  predicate StandsFor(row: Row, read: Read) {
    && row.company == read.company && row.application == read.application && row.action == read.action
    && (read.user.Some? ==> row.user == read.user)
    && (read.user == None && read.apiKey.Some? ==> row.apiKey == read.apiKey)
  }

  // Rows are never newer than the last read, and appended only.
  lemma {:induction false} TrailIsPast(history: seq<Read>, now: Instant)
    requires Ordered(history) && (history != [] ==> history[|history| - 1].time <= now)
    ensures forall i | 0 <= i < |Trail(history)| :: Trail(history)[i].time <= now
    decreases |history|
  {
    if history != [] {
      var before := history[..|history| - 1];
      if before != [] { assert before[|before| - 1].time <= now; }
      TrailIsPast(before, now);
    }
  }

  /** Every read is on the trail: it has a row of the same user, or of the same API key where it has no user, for the same
      applicant and action, at most ten minutes older. */
  lemma {:induction false} EveryReadIsCovered(history: seq<Read>, k: nat)
    requires Ordered(history) && k < |history|
    ensures exists i :: 0 <= i < |Trail(history)| && StandsFor(Trail(history)[i], history[k])
                        && history[k].time - 600_000_000 <= Trail(history)[i].time <= history[k].time
    decreases |history|
  {
    var before, last := history[..|history| - 1], history[|history| - 1];
    var rows := Trail(before);
    if k < |before| {
      EveryReadIsCovered(before, k);
      var i :| 0 <= i < |rows| && StandsFor(rows[i], before[k]) && before[k].time - 600_000_000 <= rows[i].time <= before[k].time;
      assert Trail(history)[i] == rows[i];
    } else if IsRecent(rows, last) {
      var i :| 0 <= i < |rows| && Collapses(rows[i], last);
      TrailIsPast(before, last.time);
      assert StandsFor(Trail(history)[i], last);
    } else {
      assert StandsFor(Trail(history)[|rows|], last);
    }
  }

  /** A user's row never stands in for another user's read, nor one key's for another's: two reads that differ there
      have a row each, however close they are. */
  lemma ActorsHaveRowsOfTheirOwn(history: seq<Read>, j: nat, k: nat)
    requires Ordered(history) && j < |history| && k < |history|
    requires if history[j].user.Some? then history[k].user.Some? && history[j].user != history[k].user
             else history[j].apiKey.Some? && history[k].user == None && history[k].apiKey.Some? && history[j].apiKey != history[k].apiKey
    ensures exists a, b :: 0 <= a < |Trail(history)| && 0 <= b < |Trail(history)| && a != b
                           && StandsFor(Trail(history)[a], history[j]) && StandsFor(Trail(history)[b], history[k])
  {
    EveryReadIsCovered(history, j);
    EveryReadIsCovered(history, k);
    var a :| 0 <= a < |Trail(history)| && StandsFor(Trail(history)[a], history[j])
             && history[j].time - 600_000_000 <= Trail(history)[a].time <= history[j].time;
    var b :| 0 <= b < |Trail(history)| && StandsFor(Trail(history)[b], history[k])
             && history[k].time - 600_000_000 <= Trail(history)[b].time <= history[k].time;
    assert a != b;
  }

  /** A read with neither a user nor a key adds a row only where nobody at all did that to the applicant lately. */
  lemma AnonymousReadsCollapseIntoAny(rows: seq<Row>, read: Read)
    requires read.user == None && read.apiKey == None
    ensures Recorded(rows, read) == rows <==>
            exists i | 0 <= i < |rows| :: rows[i].company == read.company && rows[i].application == read.application
                                          && rows[i].action == read.action && read.time - 600_000_000 <= rows[i].time
  {
    if i :| 0 <= i < |rows| && rows[i].company == read.company && rows[i].application == read.application
            && rows[i].action == read.action && read.time - 600_000_000 <= rows[i].time {
      assert Collapses(rows[i], read);
    }
    assert |rows + [read]| == |rows| + 1;
  }

  /** Rows of one actor, applicant and action are more than ten minutes apart. */
  lemma {:induction false} RowsAreApart(history: seq<Read>, i: nat, j: nat)
    requires Ordered(history) && i < j < |Trail(history)| && SameKey(Trail(history)[i], Trail(history)[j])
    ensures Trail(history)[i].time + COLLAPSE_WINDOW < Trail(history)[j].time
    decreases |history|
  {
    var before, last := history[..|history| - 1], history[|history| - 1];
    var rows := Trail(before);
    if j < |rows| {
      RowsAreApart(before, i, j);
    } else {
      assert !Collapses(rows[i], last);
    }
  }

  // The rows of a key with times from lo to hi.
  function RowsIn(rows: seq<Row>, key: Row, lo: Instant, hi: Instant): nat
    decreases |rows|
  {
    if rows == [] then 0
    else
      var r := rows[|rows| - 1];
      RowsIn(rows[..|rows| - 1], key, lo, hi) + if SameKey(r, key) && lo <= r.time <= hi then 1 else 0
  }

  predicate Apart(rows: seq<Row>) {
    forall i, j | 0 <= i < j < |rows| && SameKey(rows[i], rows[j]) :: rows[i].time + COLLAPSE_WINDOW < rows[j].time
  }

  lemma FrontIsApart(rows: seq<Row>)
    requires Apart(rows) && rows != []
    ensures Apart(rows[..|rows| - 1])
  {
  }

  // The last of n rows in a span lies at least n - 1 gaps behind its start.
  lemma {:induction false} LastRowIsFar(rows: seq<Row>, key: Row, lo: Instant, hi: Instant) returns (last: nat)
    requires Apart(rows) && RowsIn(rows, key, lo, hi) > 0
    ensures last < |rows| && SameKey(rows[last], key) && lo <= rows[last].time <= hi
    ensures lo + (RowsIn(rows, key, lo, hi) - 1) * (COLLAPSE_WINDOW + 1) <= rows[last].time
    decreases |rows|
  {
    var before, r := rows[..|rows| - 1], rows[|rows| - 1];
    FrontIsApart(rows);
    var n := RowsIn(before, key, lo, hi);
    if SameKey(r, key) && lo <= r.time <= hi {
      last := |rows| - 1;
      assert RowsIn(rows, key, lo, hi) == n + 1;
      if n > 0 {
        var earlier := LastRowIsFar(before, key, lo, hi);
        assert SameKey(rows[earlier], rows[last]);
        OneGapMore(lo, n, rows[earlier].time, r.time);
      }
    } else {
      last := LastRowIsFar(before, key, lo, hi);
    }
  }

  lemma OneGapMore(lo: Instant, n: nat, earlier: Instant, later: Instant)
    requires lo + (n - 1) * (COLLAPSE_WINDOW + 1) <= earlier && earlier + COLLAPSE_WINDOW < later
    ensures lo + n * (COLLAPSE_WINDOW + 1) <= later
  {
  }

  /** Any span of length L holds at most floor(L / 10 min) + 1 rows of one actor, applicant and action;
      for a positive span the n-th row needs strictly more than n - 1 whole windows. */
  lemma SpanHoldsFewRows(history: seq<Read>, key: Row, lo: Instant, hi: Instant)
    requires Ordered(history) && lo <= hi
    ensures var n := RowsIn(Trail(history), key, lo, hi);
            && n <= (hi - lo) / COLLAPSE_WINDOW + 1
            && (n > 1 ==> (n - 1) * COLLAPSE_WINDOW < hi - lo)
  {
    TrailIsApart(history);
    if RowsIn(Trail(history), key, lo, hi) > 0 {
      var last := LastRowIsFar(Trail(history), key, lo, hi);
      WholeWindows(RowsIn(Trail(history), key, lo, hi) - 1, hi - lo);
    } else {
      WholeWindows(0, hi - lo);
    }
  }

  lemma TrailIsApart(history: seq<Read>)
    requires Ordered(history)
    ensures Apart(Trail(history))
  {
    var rows := Trail(history);
    forall i, j | 0 <= i < j < |rows| && SameKey(rows[i], rows[j]) ensures rows[i].time + COLLAPSE_WINDOW < rows[j].time {
      RowsAreApart(history, i, j);
    }
  }

  // Gaps of more than a window each fit a span only that often.
  lemma WholeWindows(gaps: nat, length: nat)
    requires gaps * (COLLAPSE_WINDOW + 1) <= length
    ensures gaps <= length / COLLAPSE_WINDOW && (gaps > 0 ==> gaps * COLLAPSE_WINDOW < length)
  {
    var q := length / COLLAPSE_WINDOW;
    assert length < (q + 1) * COLLAPSE_WINDOW;
    assert gaps * COLLAPSE_WINDOW <= length;
  }

  class AccessLog {
    var rows: seq<Row>

    method Record(read: Read)
      modifies this
      ensures rows == Recorded(old(rows), read)
      ensures rows == if exists i | 0 <= i < |old(rows)| :: StandsFor(old(rows)[i], read) && read.time - 600_000_000 <= old(rows)[i].time
                      then old(rows) else old(rows) + [read]
    {
      var i := 0;
      while i < |rows|
        invariant 0 <= i <= |rows|
        invariant forall j | 0 <= j < i :: !Collapses(rows[j], read)
      {
        if Collapses(rows[i], read) {
          assert StandsFor(rows[i], read);
          return;
        }
        i := i + 1;
      }
      rows := rows + [read];
    }
  }
}
