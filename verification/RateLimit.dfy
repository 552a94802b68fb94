/**
 Fixed-window rate limiting on a Redis counter.

 INCR and TTL run in one transaction; the EXPIRE that follows when the counter has no expiry
 yet is a separate command, so other requests run in between and the process may die before it.
 A key is gone from the instant its expiry is reached.
 */
module RateLimit {
  import opened Options

  datatype Counter = Counter(count: nat, expireAt: Option<int>)

  /** A request that was let through, in the given life of the counter key. */
  datatype Accepted = Accepted(at: int, life: int)

  /** `owing` are the requests that still have to send EXPIRE; `starts` when each life of the key began. */
  datatype State = State(counter: Counter, clock: int, owing: set<nat>, starts: seq<int>, log: seq<Accepted>)

  datatype Event = Increment(r: nat) | Expire(r: nat) | Crash(r: nat) | Tick(ms: nat)

  datatype Limits = Limits(limit: nat, windowMs: nat)

  function Initial(): State {
    State(Counter(0, Some(0)), 0, {}, [], [])
  }

  /** The counter key exists. */
  predicate Alive(c: Counter, now: int) {
    c.expireAt.None? || now < c.expireAt.value
  }

  /** Redis INCR. */
  function Incremented(c: Counter, now: int): Counter {
    if Alive(c, now) then c.(count := c.count + 1) else Counter(1, None)
  }

  function Next(s: State, e: Event, k: Limits): State {
    match e
    case Increment(r) =>
      var counter := Incremented(s.counter, s.clock);
      var starts := if Alive(s.counter, s.clock) then s.starts else s.starts + [s.clock];
      State(counter, s.clock, if counter.expireAt.None? then s.owing + {r} else s.owing, starts,
            if counter.count <= k.limit then s.log + [Accepted(s.clock, |starts| - 1)] else s.log)
    case Expire(r) =>
      if r !in s.owing then s
      else s.(owing := s.owing - {r},
              counter := if Alive(s.counter, s.clock) then s.counter.(expireAt := Some(s.clock + k.windowMs)) else s.counter)
    case Crash(r) => s.(owing := s.owing - {r})
    case Tick(ms) => s.(clock := s.clock + ms)
  }

  ghost function Run(events: seq<Event>, k: Limits): State {
    if events == [] then Initial() else Next(Run(events[..|events| - 1], k), events[|events| - 1], k)
  }

  /** JavaScript's Math.round. */
  function Round(x: real): int {
    (x + 0.5).Floor
  }

  /** The bucket's limit for this deployment, never less than one. */
  function LimitFor(limit: nat, multiplier: real): (r: nat)
    ensures r >= 1
    ensures limit as real * multiplier >= 0.5 ==> -0.5 <= limit as real * multiplier - r as real < 0.5
    ensures limit as real * multiplier < 0.5 ==> r == 1
  {
    var rounded := Round(limit as real * multiplier);
    if rounded > 1 then rounded else 1
  }

  class Limiter {
    const limits: Limits
    var counter: Counter
    var clock: int
    var owing: set<nat>
    ghost var starts: seq<int>
    ghost var log: seq<Accepted>

    ghost function View(): State
      reads this
    {
      State(counter, clock, owing, starts, log)
    }

    constructor (limits: Limits)
      ensures View() == Initial() && this.limits == limits
    {
      this.limits := limits;
      counter, clock, owing, starts, log := Counter(0, Some(0)), 0, {}, [], [];
    }

    /** The MULTI block of `incrementWindow`; `ttl` is None where Redis answers -1. */
    method IncrAndTtl(r: nat) returns (count: nat, ttl: Option<int>)
      modifies this
      ensures View() == Next(old(View()), Increment(r), limits)
      ensures count == counter.count && (ttl.None? <==> counter.expireAt.None?)
    {
      if counter.expireAt.None? || clock < counter.expireAt.value {
        counter := counter.(count := counter.count + 1);
      } else {
        counter := Counter(1, None);
        starts := starts + [clock];
      }
      count := counter.count;
      ttl := match counter.expireAt case None => None case Some(t) => Some(t - clock);
      if ttl.None? { owing := owing + {r}; }
      if count <= limits.limit { log := log + [Accepted(clock, |starts| - 1)]; }
    }

    method SetExpiry(r: nat)
      modifies this
      ensures View() == Next(old(View()), Expire(r), limits)
    {
      if r in owing {
        owing := owing - {r};
        if counter.expireAt.None? || clock < counter.expireAt.value {
          counter := counter.(expireAt := Some(clock + limits.windowMs));
        }
      }
    }

    /** `canActivate` without interference: whether the request passes, and what the headers say. */
    method CanActivate(r: nat) returns (passes: bool, remaining: nat, reset: int)
      requires r !in owing
      modifies this
      ensures View() == Next(Next(old(View()), Increment(r), limits), Expire(r), limits)
      ensures passes <==> counter.count <= limits.limit
      ensures counter.count + remaining == limits.limit || (remaining == 0 && counter.count > limits.limit)
    {
      var count, ttl := IncrAndTtl(r);
      if ttl.None? {
        SetExpiry(r);
        reset := limits.windowMs;
      } else {
        reset := ttl.value;
      }
      remaining := if count <= limits.limit then limits.limit - count else 0;
      passes := count <= limits.limit;
    }
  }
}

/**
 `LifeLimit` and `WindowLimit`: at most `limit` requests pass in one life of the key and at most
 twice that in any window's length of time, in every interleaving, with crashes.
 */
module RateLimitProofs {
  import opened Options
  import opened Integers
  import opened RateLimit

  ghost function InLife(log: seq<Accepted>, life: int): nat {
    if log == [] then 0
    else InLife(log[..|log| - 1], life) + (if log[|log| - 1].life == life then 1 else 0)
  }

  /** Requests that passed at instants of [a, b). */
  ghost function Within(log: seq<Accepted>, a: int, b: int): nat {
    if log == [] then 0
    else Within(log[..|log| - 1], a, b) + (if a <= log[|log| - 1].at < b then 1 else 0)
  }

  /** Lives start at least a window's length apart, and the current one lasts that long. */
  ghost predicate LivesSpread(s: State, k: Limits) {
    var n := |s.starts|;
    && (forall i, j :: 0 <= i < j < n && j == i + 1 ==> s.starts[i] + k.windowMs <= s.starts[j])
    && (n == 0 ==> !Alive(s.counter, s.clock) && s.clock >= 0 && s.counter.expireAt == Some(0) && s.log == [])
    && (n > 0 ==> s.starts[n - 1] <= s.clock)
    && (n > 0 && s.counter.expireAt.Some? ==> s.starts[n - 1] + k.windowMs <= s.counter.expireAt.value)
  }

  /** What passed belongs to a life and lies before the next one. */
  ghost predicate Placed(s: State) {
    forall i :: 0 <= i < |s.log| ==>
      && 0 <= s.log[i].life < |s.starts| && s.starts[s.log[i].life] <= s.log[i].at <= s.clock
      && (s.log[i].life + 1 < |s.starts| ==> s.log[i].at <= s.starts[s.log[i].life + 1])
  }

  ghost predicate Bounded(s: State, k: Limits) {
    forall life :: InLife(s.log, life) <= if life == |s.starts| - 1 then Min(s.counter.count, k.limit) else k.limit
  }

  ghost predicate Inv(s: State, k: Limits) {
    LivesSpread(s, k) && Placed(s) && Bounded(s, k)
  }

  lemma {:induction false} NoLaterLife(log: seq<Accepted>, n: nat)
    requires forall i :: 0 <= i < |log| ==> log[i].life < n
    ensures InLife(log, n) == 0
  {
    if log != [] { NoLaterLife(log[..|log| - 1], n); }
  }

  lemma IncrementSpread(s: State, r: nat, k: Limits)
    requires LivesSpread(s, k)
    ensures LivesSpread(Next(s, Increment(r), k), k)
  {
    var t := Next(s, Increment(r), k);
    if !Alive(s.counter, s.clock) { assert t.starts == s.starts + [s.clock]; }
  }

  /** The part of `LivesSpread` that says where the clock stands. */
  ghost predicate Started(s: State) {
    && (|s.starts| > 0 ==> s.starts[|s.starts| - 1] <= s.clock)
    && (|s.starts| == 0 ==> !Alive(s.counter, s.clock) && s.log == [])
  }

  lemma IncrementPlaced(s: State, r: nat, k: Limits)
    requires Started(s) && Placed(s)
    ensures Placed(Next(s, Increment(r), k))
  {
    var starts := if Alive(s.counter, s.clock) then s.starts else s.starts + [s.clock];
    var waited := s.(starts := starts);
    assert Placed(waited);
    var t := Next(s, Increment(r), k);
    var entry := Accepted(s.clock, |starts| - 1);
    assert t.starts == starts && (t.log == s.log || t.log == s.log + [entry]);
    assert starts != [] && starts[|starts| - 1] <= s.clock;
    OneMorePlaced(waited, entry);
    assert Placed(waited.(log := t.log));
  }

  lemma OneMorePlaced(s: State, entry: Accepted)
    requires Placed(s) && s.starts != [] && entry == Accepted(s.clock, |s.starts| - 1) && s.starts[|s.starts| - 1] <= s.clock
    ensures Placed(s.(log := s.log + [entry]))
  {
  }

  lemma IncrementBounded(s: State, r: nat, k: Limits)
    requires LivesSpread(s, k) && Placed(s) && Bounded(s, k)
    ensures Bounded(Next(s, Increment(r), k), k)
  {
    var t := Next(s, Increment(r), k);
    NoLaterLife(s.log, |s.starts|);
    assert t.log == s.log || t.log[..|t.log| - 1] == s.log;
  }

  lemma IncrementKeeps(s: State, r: nat, k: Limits)
    requires Inv(s, k)
    ensures Inv(Next(s, Increment(r), k), k)
  {
    IncrementSpread(s, r, k);
    IncrementPlaced(s, r, k);
    IncrementBounded(s, r, k);
  }

  lemma OtherSpread(s: State, e: Event, k: Limits)
    requires LivesSpread(s, k) && !e.Increment?
    ensures LivesSpread(Next(s, e, k), k)
  {
  }

  lemma OtherPlaced(s: State, e: Event, k: Limits)
    requires Placed(s) && !e.Increment?
    ensures Placed(Next(s, e, k))
  {
  }

  lemma OtherBounded(s: State, e: Event, k: Limits)
    requires Bounded(s, k) && !e.Increment?
    ensures Bounded(Next(s, e, k), k)
  {
    var t := Next(s, e, k);
    assert t.log == s.log && t.starts == s.starts && t.counter.count == s.counter.count;
  }

  lemma OtherKeeps(s: State, e: Event, k: Limits)
    requires Inv(s, k) && !e.Increment?
    ensures Inv(Next(s, e, k), k)
  {
    OtherSpread(s, e, k);
    OtherPlaced(s, e, k);
    OtherBounded(s, e, k);
  }

  lemma StepKeeps(s: State, e: Event, k: Limits)
    requires Inv(s, k)
    ensures Inv(Next(s, e, k), k)
  {
    if e.Increment? { IncrementKeeps(s, e.r, k); } else { OtherKeeps(s, e, k); }
  }

  lemma {:induction false} RunKeeps(events: seq<Event>, k: Limits)
    ensures Inv(Run(events, k), k)
  {
    if events != [] {
      RunKeeps(events[..|events| - 1], k);
      StepKeeps(Run(events[..|events| - 1], k), events[|events| - 1], k);
    }
  }

  /** At most `limit` requests pass during one life of the counter key. */
  lemma LifeLimit(events: seq<Event>, k: Limits, life: int)
    ensures InLife(Run(events, k).log, life) <= k.limit
  {
    RunKeeps(events, k);
  }

  ghost function ArrivalsAfter(s: State, e: Event, n: nat): nat {
    if !e.Increment? then n
    else if s.counter.expireAt.Some? && s.counter.expireAt.value <= s.clock then 1
    else n + 1
  }

  /** Requests counted since the key last came to life. */
  ghost function Arrivals(events: seq<Event>, k: Limits): nat {
    if events == [] then 0
    else
      var before := events[..|events| - 1];
      ArrivalsAfter(Run(before, k), events[|events| - 1], Arrivals(before, k))
  }

  /** Of the `n` requests in the current life of the key the first `limit` have passed. */
  ghost predicate LetThrough(s: State, k: Limits, n: nat) {
    s.counter.count == n && InLife(s.log, |s.starts| - 1) == Min(n, k.limit)
  }

  lemma OneMoreInLife(log: seq<Accepted>, entry: Accepted, life: int)
    ensures InLife(log + [entry], life) == InLife(log, life) + (if entry.life == life then 1 else 0)
  {
    assert (log + [entry])[..|log + [entry]| - 1] == log;
  }

  lemma LifeStep(s: State, e: Event, k: Limits, n: nat)
    requires LivesSpread(s, k) && Placed(s) && LetThrough(s, k, n)
    ensures LetThrough(Next(s, e, k), k, ArrivalsAfter(s, e, n))
  {
    if e.Increment? { CountedStep(s, e.r, k, n); }
  }

  lemma CountedStep(s: State, r: nat, k: Limits, n: nat)
    requires (|s.starts| == 0 ==> !Alive(s.counter, s.clock)) && Placed(s) && LetThrough(s, k, n)
    ensures LetThrough(Next(s, Increment(r), k), k, if Alive(s.counter, s.clock) then n + 1 else 1)
  {
    var t := Next(s, Increment(r), k);
    NoLaterLife(s.log, |s.starts|);
    OneMoreInLife(s.log, Accepted(s.clock, |t.starts| - 1), |t.starts| - 1);
  }

  /** Over every run, of the requests in the current life of the key exactly the first `limit` pass. */
  lemma {:induction false} LifeExact(events: seq<Event>, k: Limits)
    ensures LetThrough(Run(events, k), k, Arrivals(events, k))
  {
    if events != [] {
      var before := events[..|events| - 1];
      LifeExact(before, k);
      RunKeeps(before, k);
      LifeStep(Run(before, k), events[|events| - 1], k, Arrivals(before, k));
    }
  }

  lemma {:induction false} StartsSpread(s: State, k: Limits, i: nat, j: nat)
    requires Inv(s, k) && i < j < |s.starts|
    ensures s.starts[i] + k.windowMs <= s.starts[j]
    decreases j
  {
    if i < j - 1 { StartsSpread(s, k, i, j - 1); }
  }

  /** What passes within a window's length of time belongs to two consecutive lives. */
  lemma {:induction false} TwoLives(s: State, k: Limits, log: seq<Accepted>, a: int, life: int)
    requires Inv(s, k) && log <= s.log
    requires forall i :: 0 <= i < |log| && a <= log[i].at < a + k.windowMs ==> life <= log[i].life <= life + 1
    ensures Within(log, a, a + k.windowMs) <= InLife(log, life) + InLife(log, life + 1)
  {
    if log != [] {
      TwoLives(s, k, log[..|log| - 1], a, life);
    }
  }

  lemma {:induction false} FirstLife(log: seq<Accepted>, a: int, b: int) returns (i: nat)
    requires Within(log, a, b) > 0
    ensures i < |log| && a <= log[i].at < b
    ensures forall j :: 0 <= j < |log| && a <= log[j].at < b ==> log[i].life <= log[j].life
  {
    var m := |log| - 1;
    if Within(log[..m], a, b) == 0 {
      i := m;
      forall j | 0 <= j < |log| && a <= log[j].at < b ensures j == m {
        if j < m { NoneWithin(log[..m], a, b, j); }
      }
    } else {
      i := FirstLife(log[..m], a, b);
      assert forall j :: 0 <= j < m ==> log[..m][j] == log[j];
      if a <= log[m].at < b && log[m].life < log[i].life { i := m; }
    }
  }

  lemma {:induction false} NoneWithin(log: seq<Accepted>, a: int, b: int, j: nat)
    requires Within(log, a, b) == 0 && j < |log|
    ensures !(a <= log[j].at < b)
  {
    if j < |log| - 1 { NoneWithin(log[..|log| - 1], a, b, j); }
  }

  lemma TwiceTheLimit(s: State, k: Limits, a: int)
    requires Inv(s, k)
    ensures Within(s.log, a, a + k.windowMs) <= 2 * k.limit
  {
    if Within(s.log, a, a + k.windowMs) > 0 {
      var i := FirstLife(s.log, a, a + k.windowMs);
      var life := s.log[i].life;
      forall j | 0 <= j < |s.log| && a <= s.log[j].at < a + k.windowMs ensures s.log[j].life <= life + 1 {
        if s.log[j].life > life + 1 { LaterLifeIsFar(s, k, i, j); }
      }
      TwoLives(s, k, s.log, a, life);
      assert InLife(s.log, life) <= k.limit && InLife(s.log, life + 1) <= k.limit;
    }
  }

  lemma LaterLifeIsFar(s: State, k: Limits, i: nat, j: nat)
    requires Inv(s, k) && i < |s.log| && j < |s.log| && s.log[i].life + 1 < s.log[j].life
    ensures s.log[i].at + k.windowMs <= s.log[j].at
  {
    StartsSpread(s, k, s.log[i].life + 1, s.log[j].life);
  }

  /**
   At most twice `limit` requests pass in any half-open interval of a window's length, whatever
   the interleaving and wherever processes die between INCR and EXPIRE.
   */
  lemma WindowLimit(events: seq<Event>, k: Limits, a: int)
    ensures Within(Run(events, k).log, a, a + k.windowMs) <= 2 * k.limit
  {
    RunKeeps(events, k);
    TwiceTheLimit(Run(events, k), k, a);
  }

  // ----- when the end of a window moves -----

  /** The end of the current window is set, and `e` sets it to another instant. */
  ghost predicate MovesEnd(s: State, e: Event, k: Limits) {
    Alive(s.counter, s.clock) && s.counter.expireAt.Some? && Next(s, e, k).counter.expireAt != s.counter.expireAt
  }

  /** `e` is an EXPIRE that finds the key. */
  ghost predicate TakesEffect(s: State, e: Event) {
    e.Expire? && e.r in s.owing && Alive(s.counter, s.clock)
  }

  /** A late EXPIRE is the one thing that moves the end of a window. */
  lemma WindowMovesOnlyByDebt(s: State, e: Event, k: Limits)
    ensures MovesEnd(s, e, k) <==>
      TakesEffect(s, e) && s.counter.expireAt.Some? && s.counter.expireAt.value != s.clock + k.windowMs
  {
  }

  ghost function Continue(s: State, events: seq<Event>, k: Limits): State {
    if events == [] then s else Next(Continue(s, events[..|events| - 1], k), events[|events| - 1], k)
  }

  /** The last EXPIRE of the run that found the key came at `at`. */
  ghost predicate LastEffect(s: State, events: seq<Event>, k: Limits, at: int) {
    events != [] &&
    var n := |events| - 1;
    var before := Continue(s, events[..n], k);
    if TakesEffect(before, events[n]) then at == before.clock else LastEffect(s, events[..n], k, at)
  }

  /** The window the last EXPIRE opened is running, and was opened before now. */
  ghost predicate InLateWindow(s: State, events: seq<Event>, k: Limits, at: int) {
    LastEffect(s, events, k, at) && at < Continue(s, events, k).clock < at + k.windowMs
  }

  /** The events of other requests, and the passing of time. */
  ghost predicate NotOf(events: seq<Event>, r: nat) {
    forall i :: 0 <= i < |events| ==> events[i].Tick? || events[i].r != r
  }

  /** After an INCR that saw no expiry, the key has none until some EXPIRE takes effect, and then the last one decides. */
  lemma {:induction false} ExpiryOfRun(s: State, events: seq<Event>, k: Limits)
    requires s.counter.expireAt.None?
    ensures var t := Continue(s, events, k);
      && (t.counter.expireAt.Some? ==> LastEffect(s, events, k, t.counter.expireAt.value - k.windowMs))
      && (forall at :: LastEffect(s, events, k, at) ==>
            at <= t.clock && (t.counter.expireAt == Some(at + k.windowMs) || (t.counter.expireAt.None? && at + k.windowMs <= t.clock)))
  {
    if events != [] { ExpiryOfRun(s, events[..|events| - 1], k); }
  }

  lemma {:induction false} DebtStays(s: State, events: seq<Event>, r: nat, k: Limits)
    requires NotOf(events, r)
    ensures r in Continue(s, events, k).owing <==> r in s.owing
  {
    if events != [] { DebtStays(s, events[..|events| - 1], r, k); }
  }

  /**
   Whatever happens between a request's INCR and its EXPIRE, and whether or not the request is
   rejected: it moves the end of a window if and only if its own INCR saw no expiry and the last
   EXPIRE of another request that took effect since is older than now but less than a window old.
   */
  lemma RequestMovesEndExact(s: State, r: nat, between: seq<Event>, k: Limits)
    requires r !in s.owing && NotOf(between, r)
    ensures var counted := Next(s, Increment(r), k);
      var now := Continue(counted, between, k);
      MovesEnd(now, Expire(r), k) <==>
        counted.counter.expireAt.None? && exists at :: InLateWindow(counted, between, k, at)
  {
    var counted := Next(s, Increment(r), k);
    var now := Continue(counted, between, k);
    DebtStays(counted, between, r, k);
    if counted.counter.expireAt.None? {
      ExpiryOfRun(counted, between, k);
      if MovesEnd(now, Expire(r), k) {
        WindowMovesOnlyByDebt(now, Expire(r), k);
        var at := now.counter.expireAt.value - k.windowMs;
        assert InLateWindow(counted, between, k, at);
      }
    }
  }

  /** A request that is not interrupted never moves the end of a window, and sets it if there is none. */
  lemma ExtendsOnlyWithoutExpiry(s: State, r: nat, k: Limits)
    requires r !in s.owing
    ensures !MovesEnd(Next(s, Increment(r), k), Expire(r), k)
    ensures Alive(s.counter, s.clock) ==>
      (Next(Next(s, Increment(r), k), Expire(r), k).counter.expireAt == s.counter.expireAt <==> s.counter.expireAt.Some?)
  {
    var counted := Next(s, Increment(r), k);
    assert Continue(counted, [], k) == counted;
    RequestMovesEndExact(s, r, [], k);
    assert forall at :: !InLateWindow(counted, [], k, at);
  }

  /** From any state at the limit in which someone owes an expiry, a request is rejected and yet moves the end. */
  lemma RejectedCanMoveEnd(s: State, q: nat, r: nat, k: Limits)
    requires s.counter.expireAt.None? && s.counter.count >= k.limit && q in s.owing && r !in s.owing && k.windowMs >= 2
    ensures var counted := Next(s, Increment(r), k);
      && counted.counter.count > k.limit && counted.log == s.log
      && MovesEnd(Continue(counted, [Expire(q), Tick(1)], k), Expire(r), k)
  {
    var counted := Next(s, Increment(r), k);
    assert [Expire(q), Tick(1)][..1] == [Expire(q)] && [Expire(q)][..0] == [];
    assert Continue(counted, [Expire(q)], k) == Next(counted, Expire(q), k);
  }

  /** With limit 1: the second request is rejected, and moves the end of the window by the instant it was late. */
  lemma RejectedMovesEnd(windowMs: nat)
    requires windowMs >= 2
    ensures var k := Limits(1, windowMs);
      var before := Run([Increment(0), Increment(1), Expire(0), Tick(1)], k);
      && before.counter == Counter(2, Some(windowMs)) && before.log == [Accepted(0, 0)]
      && Next(before, Expire(1), k).counter == Counter(2, Some(windowMs + 1))
  {
    var k := Limits(1, windowMs);
    var es := [Increment(0), Increment(1), Expire(0), Tick(1)];
    assert es[..3] == [Increment(0), Increment(1), Expire(0)] && es[..3][..2] == [Increment(0), Increment(1)];
    assert es[..3][..2][..1] == [Increment(0)] && [Increment(0)][..0] == [];
    assert Run([Increment(0)], k) == State(Counter(1, None), 0, {0}, [0], [Accepted(0, 0)]);
    assert Run([Increment(0), Increment(1)], k) == State(Counter(2, None), 0, {0, 1}, [0], [Accepted(0, 0)]);
    assert Run([Increment(0), Increment(1), Expire(0)], k) == State(Counter(2, Some(windowMs)), 0, {1}, [0], [Accepted(0, 0)]);
  }
}

/** A lock on one Redis key: SET NX PX to acquire, compare-and-delete to release. */
module RedisLock {
  import opened Options

  datatype Held = Held(token: nat, expireAt: int)

  /** A successful acquisition; `released` is when its own release deleted the key. */
  datatype Grant = Grant(token: nat, from: int, until: int, released: Option<int>)

  datatype State = State(key: Option<Held>, clock: int, grants: seq<Grant>)

  datatype Event = Acquire(token: nat, ttlMs: nat) | Release(grant: nat) | Tick(ms: nat)

  predicate Alive(s: State) {
    s.key.Some? && s.clock < s.key.value.expireAt
  }

  function Next(s: State, e: Event): State {
    match e
    case Acquire(token, ttlMs) =>
      if Alive(s) then s
      else State(Some(Held(token, s.clock + ttlMs)), s.clock, s.grants + [Grant(token, s.clock, s.clock + ttlMs, None)])
    case Release(i) =>
      if i < |s.grants| && Alive(s) && s.key.value.token == s.grants[i].token
      then s.(key := None, grants := s.grants[i := s.grants[i].(released := Some(s.clock))])
      else s
    case Tick(ms) => s.(clock := s.clock + ms)
  }

  ghost function Run(events: seq<Event>): State {
    if events == [] then State(None, 0, []) else Next(Run(events[..|events| - 1]), events[|events| - 1])
  }

  class Lock {
    var key: Option<Held>
    var clock: int
    ghost var grants: seq<Grant>

    ghost function View(): State
      reads this
    {
      State(key, clock, grants)
    }

    /** SET key token PX ttl NX. */
    method AcquireLock(token: nat, ttlMs: nat) returns (acquired: bool)
      modifies this
      ensures View() == Next(old(View()), Acquire(token, ttlMs))
      ensures acquired <==> !Alive(old(View()))
    {
      if key.Some? && clock < key.value.expireAt { return false; }
      key := Some(Held(token, clock + ttlMs));
      grants := grants + [Grant(token, clock, clock + ttlMs, None)];
      acquired := true;
    }

    /** The release script, run by the holder of grant `i`. */
    method ReleaseLock(token: nat, ghost i: nat)
      requires i < |grants| && grants[i].token == token
      modifies this
      ensures View() == Next(old(View()), Release(i))
    {
      if key.Some? && clock < key.value.expireAt && key.value.token == token {
        key := None;
        grants := grants[i := grants[i].(released := Some(clock))];
      }
    }
  }

  /** Tokens are drawn afresh. */
  ghost predicate FreshTokens(s: State) {
    forall i, j :: 0 <= i < j < |s.grants| ==> s.grants[i].token != s.grants[j].token
  }

  ghost function End(g: Grant): int {
    if g.released.Some? && g.released.value < g.until then g.released.value else g.until
  }

  /** The holder may believe it owns the lock at `t`. */
  ghost predicate Holds(g: Grant, t: int) {
    g.from <= t < End(g)
  }

  ghost predicate NewestHolds(s: State) {
    s.grants != [] &&
    var g := s.grants[|s.grants| - 1];
    g.released.None? && s.key == Some(Held(g.token, g.until))
  }

  /** Grants follow one another; only the newest may still hold, and then the key carries its token. */
  ghost predicate Inv(s: State) {
    && (forall i, j :: 0 <= i < j < |s.grants| ==> End(s.grants[i]) <= s.grants[j].from)
    && (forall i :: 0 <= i < |s.grants| ==> s.grants[i].from <= s.clock)
    && (forall i :: 0 <= i < |s.grants| && s.clock < End(s.grants[i]) ==>
          Alive(s) && s.key == Some(Held(s.grants[i].token, s.grants[i].until)))
    && (Alive(s) ==> NewestHolds(s))
  }

  lemma StepKeeps(s: State, e: Event)
    requires Inv(s) && FreshTokens(s)
    ensures Inv(Next(s, e))
  {
    if e.Release? && Next(s, e) != s {
      var last := |s.grants| - 1;
      assert e.grant == last;
    }
  }

  ghost predicate FreshRun(events: seq<Event>) {
    forall n :: 0 <= n <= |events| ==> FreshTokens(Run(events[..n]))
  }

  lemma {:induction false} RunKeeps(events: seq<Event>)
    requires FreshRun(events)
    ensures Inv(Run(events))
  {
    if events != [] {
      var before := events[..|events| - 1];
      assert forall n :: 0 <= n <= |before| ==> before[..n] == events[..n];
      RunKeeps(before);
      assert before == events[..|before|];
      StepKeeps(Run(before), events[|events| - 1]);
    }
  }

  /** In every run an acquisition succeeds if and only if every earlier one has been released or has run out. */
  lemma AcquireExact(events: seq<Event>, token: nat, ttlMs: nat)
    requires FreshRun(events)
    ensures var s, t := Run(events), Next(Run(events), Acquire(token, ttlMs));
      if forall i :: 0 <= i < |s.grants| ==> End(s.grants[i]) <= s.clock
      then t.grants == s.grants + [Grant(token, s.clock, s.clock + ttlMs, None)]
      else t == s
  {
    RunKeeps(events);
    var s := Run(events);
    if Alive(s) { assert End(s.grants[|s.grants| - 1]) > s.clock; }
  }

  /** And a holder's release takes effect exactly while it still holds. */
  lemma ReleaseExact(events: seq<Event>, i: nat)
    requires FreshRun(events) && i < |Run(events).grants|
    ensures var s, t := Run(events), Next(Run(events), Release(i));
      if s.clock < End(s.grants[i]) then t.key == None && t.grants[i].released == Some(s.clock) else t == s
  {
    RunKeeps(events);
    assert events[..|events|] == events;
    if End(Run(events).grants[i]) <= Run(events).clock { OverdueReleaseIdle(Run(events), i); }
  }

  /** At no instant do two acquisitions hold the lock. */
  lemma MutualExclusion(events: seq<Event>, i: nat, j: nat, t: int)
    requires FreshRun(events) && i < j < |Run(events).grants|
    ensures !(Holds(Run(events).grants[i], t) && Holds(Run(events).grants[j], t))
  {
    RunKeeps(events);
  }

  /** A holder whose time is over changes nothing by releasing; in particular it never frees a newer lock. */
  lemma SlowReleaseIsHarmless(events: seq<Event>, i: nat)
    requires FreshRun(events) && i < |Run(events).grants| && End(Run(events).grants[i]) <= Run(events).clock
    ensures Next(Run(events), Release(i)) == Run(events)
  {
    RunKeeps(events);
    assert events[..|events|] == events;
    OverdueReleaseIdle(Run(events), i);
  }

  lemma OverdueReleaseIdle(s: State, i: nat)
    requires Inv(s) && FreshTokens(s) && i < |s.grants| && End(s.grants[i]) <= s.clock
    ensures Next(s, Release(i)) == s
  {
    if Alive(s) { assert i != |s.grants| - 1; }
  }

  /** With a repeated token it would: the release of an expired grant frees the lock of its successor. */
  lemma RepeatedTokenFreesNewer(token: nat)
    ensures var s := Next(Next(Next(State(None, 0, []), Acquire(token, 5)), Tick(5)), Acquire(token, 5));
      End(s.grants[0]) <= s.clock && Holds(s.grants[1], s.clock) && Next(s, Release(0)).key == None
  {
  }
}
