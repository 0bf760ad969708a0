/**
 The fixed-window limiter of core/ratelimit.py and the quotas of services/quotas.py, on the shared counter.
 One clock serves the callers and the store, and a count (INCR and EXPIRE in one transaction) happens at the
 instant the caller read. A guard counts and judges in one step, or only looks and leaves the count to later code,
 so looks and counts of any number of requests mix in any order.
 */
module RateLimit {
  import opened Basics

  // A key without its window number: scope and address, or company and quota.
  type Name = nat

  datatype Key = Key(name: Name, window: int)

  // A stored counter and when it expires.
  datatype Counter = Counter(count: nat, expires: Instant)

  type Store = map<Key, Counter>

  // A limit that is on; 0 or less switches a guard off, and such a request is neither counted nor refused.
  type Limit = n: nat | n > 0 witness 1

  // What reaches the counter of a name: a guard that counts itself, a guard that only looks, a bare count.
  datatype Call =
    | Consume(time: Instant, name: Name, limit: Limit)
    | Look(time: Instant, name: Name, limit: Limit)
    | Count(time: Instant, name: Name)

  function WindowOf(time: Instant, seconds: nat): int
    requires seconds > 0
  {
    time / (seconds * SECOND)
  }

  // A key past its expiry is gone.
  function CountAt(store: Store, key: Key, now: Instant): nat {
    if key in store && now < store[key].expires then store[key].count else 0
  }

  // INCR then EXPIRE.
  function AfterHit(store: Store, key: Key, now: Instant, seconds: nat): Store {
    store[key := Counter(CountAt(store, key, now) + 1, now + seconds * SECOND)]
  }

  predicate Judges(c: Call) { !c.Count? }

  predicate Counts(c: Call) { !c.Look? }

  // A guard passes when the counter is below the limit, before the guard's own count if it makes one.
  predicate Passes(store: Store, c: Call, seconds: nat)
    requires seconds > 0
  {
    Judges(c) && CountAt(store, Key(c.name, WindowOf(c.time, seconds)), c.time) < c.limit
  }

  function StoreAfter(calls: seq<Call>, seconds: nat): Store
    requires seconds > 0
    decreases |calls|
  {
    if calls == [] then map[]
    else
      var store, c := StoreAfter(calls[..|calls| - 1], seconds), calls[|calls| - 1];
      if Counts(c) then AfterHit(store, Key(c.name, WindowOf(c.time, seconds)), c.time, seconds) else store
  }

  predicate Ordered(calls: seq<Call>) { forall i, j | 0 <= i < j < |calls| :: calls[i].time <= calls[j].time }

  predicate InWindow(c: Call, name: Name, window: int, seconds: nat)
    requires seconds > 0
  {
    c.name == name && WindowOf(c.time, seconds) == window
  }

  // The counts of a name in a window.
  function CountsIn(calls: seq<Call>, name: Name, window: int, seconds: nat): nat
    requires seconds > 0
    decreases |calls|
  {
    if calls == [] then 0
    else
      var c := calls[|calls| - 1];
      CountsIn(calls[..|calls| - 1], name, window, seconds) + if InWindow(c, name, window, seconds) && Counts(c) then 1 else 0
  }

  // The guards of a name in a window, passed or refused.
  function GuardsIn(calls: seq<Call>, name: Name, window: int, seconds: nat): nat
    requires seconds > 0
    decreases |calls|
  {
    if calls == [] then 0
    else
      var c := calls[|calls| - 1];
      GuardsIn(calls[..|calls| - 1], name, window, seconds) + if InWindow(c, name, window, seconds) && Judges(c) then 1 else 0
  }

  // The number of guards of a name that pass at times from lo up to and including hi.
  function PassedIn(calls: seq<Call>, name: Name, lo: Instant, hi: Instant, seconds: nat): nat
    requires seconds > 0
    decreases |calls|
  {
    if calls == [] then 0
    else
      var before, c := calls[..|calls| - 1], calls[|calls| - 1];
      PassedIn(before, name, lo, hi, seconds)
      + if c.name == name && lo <= c.time <= hi && Passes(StoreAfter(before, seconds), c, seconds) then 1 else 0
  }

  // What the store holds of one key: the count of its window, alive until the window is over.
  predicate Tracks(store: Store, key: Key, n: nat, seconds: nat)
    requires seconds > 0
  {
    if n == 0 then key !in store
    else key in store && store[key].count == n && (key.window + 1) * (seconds * SECOND) <= store[key].expires
  }

  lemma WindowBounds(time: Instant, seconds: nat)
    requires seconds > 0
    ensures var w := WindowOf(time, seconds);
            w * (seconds * SECOND) <= time < (w + 1) * (seconds * SECOND) <= time + seconds * SECOND
  {
    var length := seconds * SECOND;
    var w := time / length;
    assert time == w * length + time % length;
    assert (w + 1) * length == w * length + length;
  }

  lemma WindowsAreOrdered(a: int, b: int, length: int)
    requires a < b && length > 0
    ensures (a + 1) * length <= b * length
  {
  }

  /** The refreshed expiry never drops a counter inside its own window: after any calls in time order, the store
      holds the number of the counts of the window so far, and keeps it until the window is over. */
  lemma {:induction false} CounterOutlivesItsWindow(calls: seq<Call>, name: Name, window: int, seconds: nat)
    requires seconds > 0 && Ordered(calls)
    ensures Tracks(StoreAfter(calls, seconds), Key(name, window), CountsIn(calls, name, window, seconds), seconds)
    decreases |calls|
  {
    if calls != [] {
      var before, c := calls[..|calls| - 1], calls[|calls| - 1];
      CounterOutlivesItsWindow(before, name, window, seconds);
      if InWindow(c, name, window, seconds) { WindowBounds(c.time, seconds); }
    }
  }

  // The counter a call sees is the number of counts before it in its window.
  lemma SeenIsCounted(calls: seq<Call>, c: Call, seconds: nat)
    requires seconds > 0 && Ordered(calls)
    ensures var w := WindowOf(c.time, seconds);
            CountAt(StoreAfter(calls, seconds), Key(c.name, w), c.time) == CountsIn(calls, c.name, w, seconds)
  {
    CounterOutlivesItsWindow(calls, c.name, WindowOf(c.time, seconds), seconds);
    WindowBounds(c.time, seconds);
  }

  predicate LimitsWithin(calls: seq<Call>, name: Name, limit: nat) {
    forall k | 0 <= k < |calls| && Judges(calls[k]) :: calls[k].name == name ==> calls[k].limit <= limit
  }

  // Room for n more than the limit is kept: no guard of the window comes while fewer are counted than the limit
  // and as many guards as that were there already.
  predicate InTime(calls: seq<Call>, name: Name, window: int, seconds: nat, limit: nat, n: nat)
    requires seconds > 0
    decreases |calls|
  {
    calls != [] ==>
      var before, c := calls[..|calls| - 1], calls[|calls| - 1];
      && InTime(before, name, window, seconds, limit, n)
      && !(InWindow(c, name, window, seconds) && Judges(c)
           && CountsIn(before, name, window, seconds) < limit && GuardsIn(before, name, window, seconds) >= limit + n)
  }

  // Inside one window no more guards pass than the limit and n.
  lemma {:induction false} WindowPasses(calls: seq<Call>, name: Name, window: int, lo: Instant, hi: Instant, seconds: nat,
                                        limit: nat, n: nat)
    requires seconds > 0 && Ordered(calls) && LimitsWithin(calls, name, limit)
    requires InTime(calls, name, window, seconds, limit, n)
    requires window * (seconds * SECOND) <= lo && hi < (window + 1) * (seconds * SECOND)
    ensures PassedIn(calls, name, lo, hi, seconds) <= limit + n
    ensures PassedIn(calls, name, lo, hi, seconds) <= GuardsIn(calls, name, window, seconds)
    decreases |calls|
  {
    if calls != [] {
      var before, c := calls[..|calls| - 1], calls[|calls| - 1];
      WindowPasses(before, name, window, lo, hi, seconds, limit, n);
      if c.name == name && lo <= c.time <= hi {
        SameWindow(c.time, window, seconds);
        SeenIsCounted(before, c, seconds);
      }
    }
  }

  lemma SameWindow(time: Instant, window: int, seconds: nat)
    requires seconds > 0 && window * (seconds * SECOND) <= time < (window + 1) * (seconds * SECOND)
    ensures WindowOf(time, seconds) == window
  {
    WindowBounds(time, seconds);
    var w := WindowOf(time, seconds);
    if w < window { WindowsAreOrdered(w, window, seconds * SECOND); }
    if window < w { WindowsAreOrdered(window, w, seconds * SECOND); }
  }

  lemma WindowIsInterval(time: Instant, window: int, seconds: nat)
    requires seconds > 0
    ensures window * (seconds * SECOND) <= time <= (window + 1) * (seconds * SECOND) - 1 <==> WindowOf(time, seconds) == window
  {
    WindowBounds(time, seconds);
    if window * (seconds * SECOND) <= time < (window + 1) * (seconds * SECOND) { SameWindow(time, window, seconds); }
  }

  // Passes of an interval split at an instant.
  lemma {:induction false} PassedSplits(calls: seq<Call>, name: Name, lo: Instant, mid: Instant, hi: Instant, seconds: nat)
    requires seconds > 0 && lo <= mid <= hi + 1
    ensures PassedIn(calls, name, lo, hi, seconds)
            == PassedIn(calls, name, lo, mid - 1, seconds) + PassedIn(calls, name, mid, hi, seconds)
    decreases |calls|
  {
    if calls != [] { PassedSplits(calls[..|calls| - 1], name, lo, mid, hi, seconds); }
  }

  // The guards of a window that pass.
  function PassedInWindow(calls: seq<Call>, name: Name, window: int, seconds: nat): nat
    requires seconds > 0
  {
    PassedIn(calls, name, window * (seconds * SECOND), (window + 1) * (seconds * SECOND) - 1, seconds)
  }

  predicate CountsItself(calls: seq<Call>, name: Name) {
    forall k | 0 <= k < |calls| :: calls[k].name == name ==> !calls[k].Look?
  }

  lemma {:induction false} SelfCountedIsInTime(calls: seq<Call>, name: Name, window: int, seconds: nat, limit: nat)
    requires seconds > 0 && CountsItself(calls, name)
    ensures InTime(calls, name, window, seconds, limit, 0)
    ensures GuardsIn(calls, name, window, seconds) <= CountsIn(calls, name, window, seconds)
    decreases |calls|
  {
    if calls != [] { SelfCountedIsInTime(calls[..|calls| - 1], name, window, seconds, limit); }
  }

  /** Each key whose guards count themselves passes at most its limit per fixed window. */
  lemma WindowBound(calls: seq<Call>, name: Name, window: int, seconds: nat, limit: nat)
    requires seconds > 0 && Ordered(calls) && LimitsWithin(calls, name, limit) && CountsItself(calls, name)
    ensures PassedInWindow(calls, name, window, seconds) <= limit
  {
    SelfCountedIsInTime(calls, name, window, seconds, limit);
    WindowPasses(calls, name, window, window * (seconds * SECOND), (window + 1) * (seconds * SECOND) - 1, seconds, limit, 0);
  }

  /** Under an unchanging limit the bound is met exactly: of the guards of a window, the first ones pass, as many
      as the limit, and no other. */
  lemma {:induction false} WindowIsFilled(calls: seq<Call>, name: Name, window: int, seconds: nat, limit: Limit)
    requires seconds > 0 && Ordered(calls)
    requires forall k | 0 <= k < |calls| :: calls[k].name == name ==> calls[k].Consume? && calls[k].limit == limit
    ensures var n := GuardsIn(calls, name, window, seconds);
            PassedInWindow(calls, name, window, seconds) == if n < limit then n else limit
    ensures GuardsIn(calls, name, window, seconds) == CountsIn(calls, name, window, seconds)
    decreases |calls|
  {
    if calls != [] {
      var before, c := calls[..|calls| - 1], calls[|calls| - 1];
      WindowIsFilled(before, name, window, seconds, limit);
      WindowIsInterval(c.time, window, seconds);
      SeenIsCounted(before, c, seconds);
    }
  }

  /** A key that keeps in time with its counts, up to n, passes at most twice its limit and n in any interval no
      longer than the window, wherever it starts. */
  lemma IntervalBound(calls: seq<Call>, name: Name, lo: Instant, hi: Instant, seconds: nat, limit: nat, n: nat)
    requires seconds > 0 && Ordered(calls) && LimitsWithin(calls, name, limit)
    requires lo <= hi <= lo + seconds * SECOND
    requires forall window :: InTime(calls, name, window, seconds, limit, n)
    ensures PassedIn(calls, name, lo, hi, seconds) <= 2 * (limit + n)
  {
    var length, w := seconds * SECOND, WindowOf(lo, seconds);
    WindowBounds(lo, seconds);
    var mid := (w + 1) * length;
    if hi < mid {
      WindowPasses(calls, name, w, lo, hi, seconds, limit, n);
    } else {
      PassedSplits(calls, name, lo, mid, hi, seconds);
      WindowPasses(calls, name, w, lo, mid - 1, seconds, limit, n);
      assert (w + 2) * length == mid + length;
      WindowPasses(calls, name, w + 1, mid, hi, seconds, limit, n);
    }
  }

  /** ... so at most twice its limit where the guards count themselves. */
  lemma SelfCountedInterval(calls: seq<Call>, name: Name, lo: Instant, hi: Instant, seconds: nat, limit: nat)
    requires seconds > 0 && Ordered(calls) && LimitsWithin(calls, name, limit) && CountsItself(calls, name)
    requires lo <= hi <= lo + seconds * SECOND
    ensures PassedIn(calls, name, lo, hi, seconds) <= 2 * limit
  {
    forall window ensures InTime(calls, name, window, seconds, limit, 0) {
      SelfCountedIsInTime(calls, name, window, seconds, limit);
    }
    IntervalBound(calls, name, lo, hi, seconds, limit, 0);
  }

  // ---------------------------------------------------------------- guards that only look

  // The limit in force for a key.
  predicate LimitIs(calls: seq<Call>, name: Name, limit: Limit) {
    forall k | 0 <= k < |calls| && Judges(calls[k]) :: calls[k].name == name ==> calls[k].limit == limit
  }

  // The guards that pass are those that come before the limit is counted.
  lemma {:induction false} PassesWhileUncounted(calls: seq<Call>, name: Name, window: int, seconds: nat, limit: Limit, n: nat)
    requires seconds > 0 && Ordered(calls) && LimitIs(calls, name, limit)
    ensures var passed := PassedInWindow(calls, name, window, seconds);
            && passed <= GuardsIn(calls, name, window, seconds)
            && (CountsIn(calls, name, window, seconds) < limit ==> passed == GuardsIn(calls, name, window, seconds))
            && (passed <= limit + n <==> InTime(calls, name, window, seconds, limit, n))
    decreases |calls|
  {
    if calls != [] {
      var before, c := calls[..|calls| - 1], calls[|calls| - 1];
      PassesWhileUncounted(before, name, window, seconds, limit, n);
      WindowIsInterval(c.time, window, seconds);
      SeenIsCounted(before, c, seconds);
      hide WindowOf, StoreAfter, CountAt, Ordered;
    }
  }

  /** Exactly when guards that only look keep a limit, and by how much they overrun it: a window passes at most n more
      than the limit in force, if and only if no guard comes while fewer are counted than the limit and that many
      guards, and n, were there already. With n = 0: the first guard too many comes only once the limit is counted. */
  lemma OverrunExactly(calls: seq<Call>, name: Name, window: int, seconds: nat, limit: Limit, n: nat)
    requires seconds > 0 && Ordered(calls) && LimitIs(calls, name, limit)
    ensures PassedInWindow(calls, name, window, seconds) <= limit + n <==> InTime(calls, name, window, seconds, limit, n)
  {
    PassesWhileUncounted(calls, name, window, seconds, limit, n);
  }

  // Every guard that passed is counted before the next guard; those that are refused never are.
  predicate Serial(calls: seq<Call>, name: Name, window: int, seconds: nat, limit: nat)
    requires seconds > 0
    decreases |calls|
  {
    calls != [] ==>
      var before, c := calls[..|calls| - 1], calls[|calls| - 1];
      && Serial(before, name, window, seconds, limit)
      && (InWindow(c, name, window, seconds) && Judges(c) && CountsIn(before, name, window, seconds) < limit ==>
            GuardsIn(before, name, window, seconds) <= CountsIn(before, name, window, seconds))
  }

  /** One request after the other keeps the limit, however many are refused once it is reached. */
  lemma {:induction false} SerialKeepsTheLimit(calls: seq<Call>, name: Name, window: int, seconds: nat, limit: Limit)
    requires seconds > 0 && Ordered(calls) && LimitIs(calls, name, limit) && Serial(calls, name, window, seconds, limit)
    ensures InTime(calls, name, window, seconds, limit, 0) && PassedInWindow(calls, name, window, seconds) <= limit
    decreases |calls|
  {
    if calls != [] { SerialKeepsTheLimit(calls[..|calls| - 1], name, window, seconds, limit); }
    OverrunExactly(calls, name, window, seconds, limit, 0);
  }

  // No guard comes while more than n of the guards ahead of it are without a count.
  predicate Covered(calls: seq<Call>, name: Name, window: int, seconds: nat, n: nat)
    requires seconds > 0
    decreases |calls|
  {
    calls != [] ==>
      var before, c := calls[..|calls| - 1], calls[|calls| - 1];
      && Covered(before, name, window, seconds, n)
      && (InWindow(c, name, window, seconds) && Judges(c) ==>
            GuardsIn(before, name, window, seconds) <= CountsIn(before, name, window, seconds) + n)
  }

  lemma {:induction false} CoveredIsInTime(calls: seq<Call>, name: Name, window: int, seconds: nat, limit: nat, n: nat)
    requires seconds > 0 && Covered(calls, name, window, seconds, n)
    ensures InTime(calls, name, window, seconds, limit, n)
    decreases |calls|
  {
    if calls != [] { CoveredIsInTime(calls[..|calls| - 1], name, window, seconds, limit, n); }
  }

  lemma {:induction false} UncoveredIsLate(calls: seq<Call>, name: Name, window: int, seconds: nat, n: nat) returns (limit: Limit)
    requires seconds > 0 && !Covered(calls, name, window, seconds, n)
    ensures !InTime(calls, name, window, seconds, limit, n)
    decreases |calls|
  {
    var before := calls[..|calls| - 1];
    if Covered(before, name, window, seconds, n) {
      limit := CountsIn(before, name, window, seconds) + 1;
    } else {
      limit := UncoveredIsLate(before, name, window, seconds, n);
    }
  }

  /** An order of guards and counts is in time under every limit, the one in force and any other, exactly when no
      guard comes while more than n of the guards ahead of it are without a count. */
  lemma InTimeUnderEveryLimit(calls: seq<Call>, name: Name, window: int, seconds: nat, n: nat)
    requires seconds > 0
    ensures (forall limit: Limit :: InTime(calls, name, window, seconds, limit, n)) <==> Covered(calls, name, window, seconds, n)
  {
    if Covered(calls, name, window, seconds, n) {
      forall limit: Limit ensures InTime(calls, name, window, seconds, limit, n) {
        CoveredIsInTime(calls, name, window, seconds, limit, n);
      }
    } else {
      var limit := UncoveredIsLate(calls, name, window, seconds, n);
    }
  }

  // Two requests look at a counter with room for one, then both are counted.
  function TwoLooks(now: Instant, name: Name): seq<Call> {
    [Look(now, name, 1), Look(now, name, 1), Count(now, name), Count(now, name)]
  }

  /** The emails key is looked at where a request comes in and counted where its mail is queued, so two requests at
      once get one past the limit. */
  lemma TwoLooksOverrun(now: Instant, name: Name, seconds: nat)
    requires seconds > 0
    ensures Ordered(TwoLooks(now, name)) && LimitsWithin(TwoLooks(now, name), name, 1)
    ensures PassedInWindow(TwoLooks(now, name), name, WindowOf(now, seconds), seconds) == 2
  {
    WindowBounds(now, seconds);
    var calls, w := TwoLooks(now, name), WindowOf(now, seconds);
    assert calls[..3] == [calls[0], calls[1], calls[2]] && calls[..3][..2] == [calls[0], calls[1]];
    assert [calls[0], calls[1]][..1] == [calls[0]] && [calls[0]][..0] == [];
    assert StoreAfter([], seconds) == map[] && StoreAfter([calls[0]], seconds) == map[];
    var lo, hi := w * (seconds * SECOND), (w + 1) * (seconds * SECOND) - 1;
    assert PassedIn([calls[0]], name, lo, hi, seconds) == 1;
    assert PassedIn([calls[0], calls[1]], name, lo, hi, seconds) == 2;
    assert PassedIn(calls[..3], name, lo, hi, seconds) == 2;
  }

  // ---------------------------------------------------------------- the Retry-After header

  // max(1, int((window + 1) * seconds - now)), in whole seconds.
  function RetryAfter(now: Instant, seconds: nat): int
    requires seconds > 0
  {
    var rest := ((WindowOf(now, seconds) + 1) * (seconds * SECOND) - now) / SECOND;
    if rest < 1 then 1 else rest
  }

  /** A client that waits as told is in a later window exactly when the rest of its window is whole seconds or less
      than one: the header rounds down, so otherwise the same counter answers again. */
  lemma RetryAfterReachesNextWindow(now: Instant, seconds: nat)
    requires seconds > 0
    ensures WindowOf(now + RetryAfter(now, seconds) * SECOND, seconds) > WindowOf(now, seconds)
            <==> now % SECOND == 0 || (WindowOf(now, seconds) + 1) * (seconds * SECOND) - now < SECOND
  {
    var length, w := seconds * SECOND, WindowOf(now, seconds);
    WindowBounds(now, seconds);
    var last := (w + 1) * seconds;
    assert (w + 1) * length == last * SECOND;
    RoundedDownWait(now, last);
    var later := now + RetryAfter(now, seconds) * SECOND;
    WindowBounds(later, seconds);
    var v := WindowOf(later, seconds);
    if v < w { WindowsAreOrdered(v, w, length); }
    if w < v { WindowsAreOrdered(w, v, length); }
  }

  /** For one that does not: half a second into a window of a minute, the answer is 59 seconds. */
  lemma WaitingAsToldIsTooShort()
    ensures RetryAfter(SECOND / 2, 60) == 59
    ensures WindowOf(SECOND / 2 + 59 * SECOND, 60) == WindowOf(SECOND / 2, 60)
  {
  }

  // Waiting the whole seconds that are left, but at least one.
  lemma RoundedDownWait(now: Instant, last: int)
    requires now < last * SECOND
    ensures var rest := (last * SECOND - now) / SECOND;
            now + (if rest < 1 then 1 else rest) * SECOND >= last * SECOND
            <==> now % SECOND == 0 || last * SECOND - now < SECOND
  {
  }

  // ---------------------------------------------------------------- the counters in place

  class Limiter {
    var store: Store

    method HitWindow(key: Key, now: Instant, seconds: nat) returns (count: nat)
      modifies this
      ensures store == AfterHit(old(store), key, now, seconds)
      ensures count == CountAt(old(store), key, now) + 1
    {
      count := 1;
      if key in store && now < store[key].expires {
        count := store[key].count + 1;
      }
      store := store[key := Counter(count, now + seconds * SECOND)];
    }

    method PeekWindow(key: Key, now: Instant) returns (count: nat)
      ensures count == CountAt(store, key, now)
    {
      count := if key in store && now < store[key].expires then store[key].count else 0;
    }

    // None lets the request through, Some is the Retry-After of the 429.
    method CheckRateLimit(name: Name, limit: int, now: Instant) returns (refused: Option<int>)
      modifies this
      ensures limit <= 0 ==> refused == None && store == old(store)
      ensures limit > 0 ==> store == AfterHit(old(store), Key(name, WindowOf(now, 60)), now, 60)
                            && refused == if Passes(old(store), Consume(now, name, limit), 60) then None
                                          else Some(RetryAfter(now, 60))
    {
      if limit <= 0 {
        return None;
      }
      var count := HitWindow(Key(name, WindowOf(now, 60)), now, 60);
      refused := if count > limit then Some(RetryAfter(now, 60)) else None;
    }

    // guard: with consume the call counts itself, without it only looks.
    method Guard(name: Name, limit: int, consume: bool, now: Instant, seconds: nat) returns (exceeded: Option<int>)
      requires seconds > 0
      modifies this
      ensures limit <= 0 ==> exceeded == None && store == old(store)
      ensures limit > 0 ==> (exceeded == None <==> Passes(old(store), if consume then Consume(now, name, limit) else Look(now, name, limit), seconds))
      ensures limit > 0 ==> store == if consume then AfterHit(old(store), Key(name, WindowOf(now, seconds)), now, seconds)
                                     else old(store)
      ensures exceeded.Some? ==> exceeded.value == RetryAfter(now, seconds)
    {
      if limit <= 0 {
        return None;
      }
      var key := Key(name, WindowOf(now, seconds));
      var over: bool;
      if consume {
        var count := HitWindow(key, now, seconds);
        over := count > limit;
      } else {
        var current := PeekWindow(key, now);
        over := current >= limit;
      }
      exceeded := if over then Some(RetryAfter(now, seconds)) else None;
    }
  }
}
