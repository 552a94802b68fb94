/**
 At-most-once writes: the idempotency interceptor and the SDK's retry loop over a lossy network.

 `AtMostOnce`: in every interleaving in which no purge takes the row of a request that still
 needs it, a key has at most one success between purges. `PurgeExact`: one purge that does
 makes two successes in one life possible. `EndToEnd` adds the client: what `send` returns is
 that one success.
 */
module AtMostOnceProofs {
  import opened Options
  import opened Idempotency
  import SdkClient

  /** The request has inserted its key's row, and will succeed under it or delete it. */
  ghost predicate Holds(s: State, id: nat) {
    id in s.requests && (s.requests[id].phase.Running? || s.requests[id].phase.Releasing?)
  }

  /** A purge now would leave every such request its row. */
  ghost predicate SafePurge(s: State) {
    forall id :: Holds(s, id) ==> !Expired(s, s.requests[id].key)
  }

  ghost predicate Current(s: State, entry: Success) {
    entry.life == Life(s.lives, entry.key)
  }

  /** A request that holds a key is the only one to hold it, and the row is the one it inserted. */
  ghost predicate Owns(s: State) {
    forall id :: Holds(s, id) ==>
      var r := s.requests[id];
      && r.key in s.rows && s.rows[r.key].expiresAt == r.claimedAt + TTL_MS
      && forall other :: Holds(s, other) && s.requests[other].key == r.key ==> other == id
  }

  /** After a success the row stays, and nobody holds the key. */
  ghost predicate Settled(s: State) {
    forall i :: 0 <= i < |s.log| ==>
      && s.log[i].life <= Life(s.lives, s.log[i].key)
      && (Current(s, s.log[i]) && s.log[i].key.key != "" ==>
            s.log[i].key in s.rows && forall id :: Holds(s, id) ==> s.requests[id].key != s.log[i].key)
  }

  /** At most one success per key and life. */
  ghost predicate OncePerLife(s: State) {
    forall i, j :: 0 <= i < j < |s.log| && s.log[i].key.key != "" ==> s.log[i].key != s.log[j].key || s.log[i].life != s.log[j].life
  }

  ghost predicate Core(s: State) {
    Owns(s) && Settled(s) && OncePerLife(s) && PhasesFit(s)
  }

  /** A request runs without a key exactly if it has none. */
  ghost predicate PhaseFits(r: Request) {
    match r.phase
    case Unkeyed => r.key.key == ""
    case Finished => true
    case _ => r.key.key != ""
  }

  ghost predicate PhasesFit(s: State) {
    forall id :: id in s.requests ==> PhaseFits(s.requests[id])
  }

  /** Each success is that of a request which was told so, and no request has two. */
  ghost predicate OneEach(s: State) {
    && (forall i :: 0 <= i < |s.log| ==> Told(s, s.log[i]))
    && (forall i, j :: 0 <= i < j < |s.log| ==> s.log[i].request != s.log[j].request)
  }

  ghost predicate Told(s: State, entry: Success) {
    && entry.request in s.requests
    && var r := s.requests[entry.request];
       r.key == entry.key && r.reply == Some(Created(entry.payload)) && (r.phase.Storing? || r.phase.Finished?)
  }

  /** Nobody holds more keys than before, and the rows of the keys held are the same. */
  ghost predicate Narrows(s: State, t: State) {
    && t.log == s.log && t.lives == s.lives && PhasesFit(t)
    && (forall o :: Holds(t, o) ==> Holds(s, o) && t.requests[o].key == s.requests[o].key && t.requests[o].claimedAt == s.requests[o].claimedAt)
    && (forall k :: k in s.rows ==> k in t.rows && t.rows[k].expiresAt == s.rows[k].expiresAt)
  }

  lemma NarrowsKeeps(s: State, t: State)
    requires Core(s) && Narrows(s, t)
    ensures Core(t)
  {
  }

  lemma ClaimKeeps(s: State, id: nat)
    requires Core(s) && id in s.requests && s.requests[id].phase.Missed? && s.requests[id].key !in s.rows
    ensures Core(Next(s, Claim(id)))
  {
    var t := Next(s, Claim(id));
    assert forall o :: Holds(t, o) && o != id ==> Holds(s, o) && t.requests[o] == s.requests[o];
  }

  lemma SucceedKeeps(s: State, id: nat, payload: int)
    requires Core(s) && id in s.requests && s.requests[id].phase.Running?
    ensures Core(Next(s, Succeed(id, payload)))
  {
    assert Holds(s, id);
    var t := Next(s, Succeed(id, payload));
    var u := t.(log := s.log);
    assert Narrows(s, u);
    NarrowsKeeps(s, u);
    assert forall o :: Holds(u, o) ==> u.requests[o].key != s.requests[id].key;
    LogKeeps(u, Success(s.requests[id].key, Life(s.lives, s.requests[id].key), payload, id));
  }

  /** A success without a key concerns no life. */
  lemma UnkeyedLogs(s: State, entry: Success)
    requires Core(s) && entry.key.key == "" && entry.life <= Life(s.lives, entry.key)
    ensures Core(s.(log := s.log + [entry]))
  {
  }

  lemma UnkeyedKeeps(s: State, id: nat, payload: int)
    requires Core(s) && id in s.requests && s.requests[id].phase.Unkeyed?
    ensures Core(Next(s, Succeed(id, payload)))
  {
    var t, r := Next(s, Succeed(id, payload)), s.requests[id];
    var u := t.(log := s.log);
    assert PhaseFits(r);
    NarrowsKeeps(s, u);
    UnkeyedLogs(u, Success(r.key, Life(s.lives, r.key), payload, id));
  }

  /** The first success of a life, under a row nobody holds any more. */
  lemma LogKeeps(s: State, entry: Success)
    requires Core(s) && Current(s, entry) && entry.key in s.rows
    requires forall o :: Holds(s, o) ==> s.requests[o].key != entry.key
    requires forall i :: 0 <= i < |s.log| && s.log[i].key == entry.key ==> !Current(s, s.log[i])
    ensures Core(s.(log := s.log + [entry]))
  {
  }

  lemma ReleaseKeeps(s: State, id: nat)
    requires Core(s) && id in s.requests && s.requests[id].phase.Releasing?
    ensures Core(Next(s, Release(id, true)))
  {
    assert Holds(s, id);
    var t := Next(s, Release(id, true));
    assert forall o :: Holds(t, o) ==> Holds(s, o) && o != id && t.requests[o] == s.requests[o];
  }

  lemma PurgeKeeps(s: State)
    requires Core(s) && SafePurge(s)
    ensures Core(Next(s, Purge))
  {
    var t := Next(s, Purge);
    assert forall o :: Holds(t, o) <==> Holds(s, o);
    forall k ensures Life(t.lives, k) == Life(s.lives, k) + (if Expired(s, k) then 1 else 0) {}
  }

  lemma StepKeeps(s: State, e: Event)
    requires Core(s) && (e == Purge ==> SafePurge(s))
    ensures Core(Next(s, e))
  {
    match e {
      case Purge => PurgeKeeps(s);
      case Arrive(_, _, _) => NarrowsKeeps(s, Next(s, e));
      case Tick(_) => NarrowsKeeps(s, Next(s, e));
      case _ => if e.id in s.requests { AdvanceKeeps(s, e, s.requests[e.id]); }
    }
  }

  lemma AdvanceKeeps(s: State, e: Event, r: Request)
    requires Core(s) && !e.Arrive? && !e.Purge? && !e.Tick? && e.id in s.requests && r == s.requests[e.id]
    ensures Core(Next(s, e))
  {
    if e.Claim? && r.phase.Missed? && r.key !in s.rows {
      ClaimKeeps(s, e.id);
    } else if e.Succeed? && r.phase.Running? {
      SucceedKeeps(s, e.id, e.payload);
    } else if e.Succeed? && r.phase.Unkeyed? {
      UnkeyedKeeps(s, e.id, e.payload);
    } else if e.Release? && e.ok && r.phase.Releasing? {
      ReleaseKeeps(s, e.id);
    } else {
      OthersNarrow(s, e, r);
      NarrowsKeeps(s, Next(s, e));
    }
  }

  lemma OthersNarrow(s: State, e: Event, r: Request)
    requires !e.Arrive? && !e.Purge? && !e.Tick? && e.id in s.requests && r == s.requests[e.id]
    requires !(e.Claim? && r.phase.Missed? && r.key !in s.rows)
    requires PhasesFit(s) && !(e.Succeed? && (r.phase.Running? || r.phase.Unkeyed?)) && !(e.Release? && e.ok && r.phase.Releasing?)
    ensures Narrows(s, Next(s, e))
  {
  }

  // ----- replies -----

  ghost predicate Logged(log: seq<Success>, key: Key, payload: int) {
    exists life: nat, request: nat :: Success(key, life, payload, request) in log
  }

  ghost predicate ReplyLogged(log: seq<Success>, r: Request) {
    match r.reply
    case Some(Created(p)) => Logged(log, r.key, p)
    case Some(Replayed(p)) => Logged(log, r.key, p)
    case _ => true
  }

  ghost predicate RequestLogged(log: seq<Success>, r: Request) {
    ReplyLogged(log, r) && (r.phase.Storing? ==> Logged(log, r.key, r.phase.payload))
  }

  /** Stored responses, pending stores and replies all carry the payload of a logged success. */
  ghost predicate Honest(s: State) {
    && (forall k :: k in s.rows && s.rows[k].response.Some? ==> Logged(s.log, k, s.rows[k].response.value))
    && (forall id :: id in s.requests ==> RequestLogged(s.log, s.requests[id]))
  }

  lemma LongerLog(log: seq<Success>, entry: Success)
    ensures forall key, payload :: Logged(log, key, payload) ==> Logged(log + [entry], key, payload)
    ensures Logged(log + [entry], entry.key, entry.payload)
  {
    assert (log + [entry])[|log|] == entry;
    forall key, payload | Logged(log, key, payload) ensures Logged(log + [entry], key, payload) {
      var life: nat, request: nat :| Success(key, life, payload, request) in log;
      assert Success(key, life, payload, request) in log + [entry];
    }
  }

  lemma LogKept(s: State, e: Event)
    ensures forall key, payload :: Logged(s.log, key, payload) ==> Logged(Next(s, e).log, key, payload)
    ensures e.Succeed? && e.id in s.requests && (s.requests[e.id].phase.Running? || s.requests[e.id].phase.Unkeyed?) ==>
      Logged(Next(s, e).log, s.requests[e.id].key, e.payload)
  {
    if e.Succeed? && e.id in s.requests {
      var key := s.requests[e.id].key;
      LongerLog(s.log, Success(key, Life(s.lives, key), e.payload, e.id));
    }
  }

  lemma StepHonest(s: State, e: Event)
    requires Honest(s)
    ensures Honest(Next(s, e))
  {
    LogKept(s, e);
  }

  // ----- whole runs -----

  /** Every purge of the run is safe when it comes. */
  ghost predicate SafeRun(s: State, events: seq<Event>) {
    forall n :: 0 <= n < |events| && events[n] == Purge ==> SafePurge(Run(s, events[..n]))
  }

  lemma {:induction false} RunKeeps(s: State, events: seq<Event>)
    requires Core(s) && SafeRun(s, events)
    ensures Core(Run(s, events))
  {
    if events != [] {
      var before := events[..|events| - 1];
      assert forall n :: 0 <= n < |before| ==> before[..n] == events[..n] && before[n] == events[n];
      RunKeeps(s, before);
      StepKeeps(Run(s, before), events[|events| - 1]);
    }
  }

  /**
   However requests interleave, crash or lose their bookkeeping writes, the handler succeeds at
   most once per organization, key and endpoint between two purges of the key.
   */
  lemma AtMostOnce(events: seq<Event>, i: nat, j: nat)
    requires SafeRun(Initial(), events) && i < j < |Run(Initial(), events).log|
    ensures var log := Run(Initial(), events).log;
      log[i].key == log[j].key && log[i].key.key != "" ==> log[i].life != log[j].life
  {
    RunKeeps(Initial(), events);
  }

  /** A key row disappears only by its expiry or by the request that inserted it, never by a loser of the insert. */
  lemma OnlyOwnerReleases(s: State, e: Event, k: Key)
    requires Core(s) && k in s.rows && k !in Next(s, e).rows
    ensures (e == Purge && Expired(s, k)) ||
      (e.Release? && Holds(s, e.id) && s.requests[e.id].key == k && s.requests[e.id].claimedAt + TTL_MS == s.rows[k].expiresAt
       && forall other :: Holds(s, other) && s.requests[other].key == k ==> other == e.id)
  {
    if e.Release? { assert Holds(s, e.id); }
  }

  // ----- what an unsafe purge makes possible -----

  lemma {:induction false} RunAppend(s: State, es: seq<Event>, fs: seq<Event>)
    ensures Run(s, es + fs) == Run(Run(s, es), fs)
    decreases |fs|
  {
    if fs == [] {
      assert es + fs == es;
    } else {
      assert (es + fs)[..|es + fs| - 1] == es + fs[..|fs| - 1];
      RunAppend(s, es, fs[..|fs| - 1]);
    }
  }

  lemma RunThree(s: State, a: Event, b: Event, c: Event)
    ensures Run(s, [a, b, c]) == Next(Next(Next(s, a), b), c)
  {
    assert [a, b, c][..2] == [a, b] && [a, b][..1] == [a] && [a][..0] == [];
    assert Run(s, [a]) == Next(s, a);
    assert Run(s, [a, b]) == Next(Run(s, [a]), b);
  }

  lemma {:induction false} UnusedId(ids: set<nat>) returns (id: nat)
    ensures forall x :: x in ids ==> x < id
  {
    if x: nat :| x in ids {
      var y := UnusedId(ids - {x});
      id := if x < y then y else x + 1;
      assert forall z :: z in ids ==> z == x || z in ids - {x};
    } else {
      id := 0;
    }
  }

  ghost function Waits(s: State, id: nat, k: Key, phase: Phase, hash: int := 0): State {
    s.(requests := s.requests[id := Request(k, hash, phase, 0, None)])
  }

  lemma Arrives(s: State, id: nat, k: Key, hash: int := 0)
    requires id !in s.requests && k !in s.rows && k.key != ""
    ensures Next(s, Arrive(id, k, hash)) == Waits(s, id, k, Arrived, hash)
    ensures Next(Waits(s, id, k, Arrived, hash), Find(id)) == Waits(s, id, k, Missed, hash)
  {
  }

  /** The state once the request has inserted its row. */
  ghost function Claimed(s: State, id: nat, k: Key, hash: int := 0): State {
    s.(rows := s.rows[k := Row(hash, None, s.clock + TTL_MS)],
       requests := s.requests[id := Request(k, hash, Running, s.clock, None)])
  }

  lemma Inserts(s: State, id: nat, k: Key, hash: int := 0)
    requires id !in s.requests && k !in s.rows
    ensures Next(Waits(s, id, k, Missed, hash), Claim(id)) == Claimed(s, id, k, hash)
  {
  }

  /** A new request finds no row of its key and inserts one. */
  lemma Claims(s: State, id: nat, k: Key, hash: int := 0)
    requires id !in s.requests && k !in s.rows && k.key != ""
    ensures Run(s, [Arrive(id, k, hash), Find(id), Claim(id)]) == Claimed(s, id, k, hash)
  {
    Arrives(s, id, k, hash);
    Inserts(s, id, k, hash);
    RunThree(s, Arrive(id, k, hash), Find(id), Claim(id));
  }

  lemma BothSucceed(s: State, b: nat, c: nat, k: Key)
    requires b != c && b in s.requests && s.requests[b].key == k && s.requests[b].phase.Running?
    requires c in s.requests && s.requests[c].key == k && s.requests[c].phase.Running?
    ensures Run(s, [Succeed(b, 7), Succeed(c, 8)]).log == s.log + [Success(k, Life(s.lives, k), 7, b), Success(k, Life(s.lives, k), 8, c)]
  {
    assert [Succeed(b, 7), Succeed(c, 8)][..1] == [Succeed(b, 7)] && [Succeed(b, 7)][..0] == [];
    assert Run(s, [Succeed(b, 7)]) == Next(s, Succeed(b, 7));
    assert Run(s, [Succeed(b, 7), Succeed(c, 8)]) == Next(Next(s, Succeed(b, 7)), Succeed(c, 8));
  }

  /** The release of a request whose row is gone frees the key of `b`, and `c` takes it. */
  lemma ReleaseLetsIn(s: State, slow: nat, b: nat, c: nat, k: Key)
    requires slow in s.requests && s.requests[slow].phase.Releasing? && s.requests[slow].key == k
    requires b != slow && b in s.requests && s.requests[b].key == k && s.requests[b].phase.Running?
    requires c !in s.requests && k.key != ""
    ensures var t := Run(s, [Release(slow, true)] + [Arrive(c, k, 0), Find(c), Claim(c)]);
      && t.log == s.log && t.lives == s.lives
      && b in t.requests && t.requests[b] == s.requests[b]
      && c in t.requests && t.requests[c].key == k && t.requests[c].phase.Running?
  {
    var freed := Next(s, Release(slow, true));
    assert [Release(slow, true)][..0] == [];
    assert Run(s, [Release(slow, true)]) == freed;
    assert k !in freed.rows && c !in freed.requests && freed.requests[b] == s.requests[b];
    Claims(freed, c, k);
    RunAppend(s, [Release(slow, true)], [Arrive(c, k, 0), Find(c), Claim(c)]);
  }

  /** A request that failed after its row was purged: two others can succeed in one life of the key. */
  lemma ReleasingTwice(s: State, slow: nat) returns (events: seq<Event>)
    requires slow in s.requests && s.requests[slow].phase.Releasing? && s.requests[slow].key !in s.rows && PhasesFit(s)
    ensures Purge !in events && !OncePerLife(Run(s, events))
  {
    var k := s.requests[slow].key;
    var b := UnusedId(s.requests.Keys);
    var c := b + 1;
    var first := [Arrive(b, k, 0), Find(b), Claim(b)];
    var second := [Release(slow, true)] + [Arrive(c, k, 0), Find(c), Claim(c)];
    var last := [Succeed(b, 7), Succeed(c, 8)];
    Claims(s, b, k);
    var t := Claimed(s, b, k);
    ReleaseLetsIn(t, slow, b, c, k);
    BothSucceed(Run(t, second), b, c, k);
    events := first + (second + last);
    RunAppend(s, first, second + last);
    RunAppend(t, second, last);
    TwoInOneLife(s.log, k, Life(s.lives, k), b, c, Run(s, events));
  }

  lemma TwoInOneLife(log: seq<Success>, k: Key, life: nat, b: nat, c: nat, t: State)
    requires t.log == log + [Success(k, life, 7, b), Success(k, life, 8, c)] && k.key != ""
    ensures !OncePerLife(t)
  {
    assert t.log[|log|] == Success(k, life, 7, b) && t.log[|log| + 1] == Success(k, life, 8, c);
  }

  /** The same for one that is still running: it can fail. */
  lemma HeldTwice(s: State, slow: nat) returns (events: seq<Event>)
    requires Holds(s, slow) && s.requests[slow].key !in s.rows && PhasesFit(s)
    ensures Purge !in events && !OncePerLife(Run(s, events))
  {
    if s.requests[slow].phase.Releasing? {
      events := ReleasingTwice(s, slow);
    } else {
      var rest := ReleasingTwice(Next(s, Fail(slow, 500)), slow);
      events := [Fail(slow, 500)] + rest;
      assert [Fail(slow, 500)][..0] == [];
      assert Run(s, [Fail(slow, 500)]) == Next(s, Fail(slow, 500));
      RunAppend(s, [Fail(slow, 500)], rest);
    }
  }

  /**
   A purge keeps at-most-once for all that can follow if and only if no request that is still
   running or releasing has outlived its row.
   */
  lemma PurgeExact(s: State)
    requires Core(s)
    ensures (forall events :: SafeRun(Next(s, Purge), events) ==> OncePerLife(Run(Next(s, Purge), events))) <==> SafePurge(s)
  {
    var t := Next(s, Purge);
    if SafePurge(s) {
      PurgeKeeps(s);
      forall events | SafeRun(t, events) ensures OncePerLife(Run(t, events)) { RunKeeps(t, events); }
    } else {
      var slow :| Holds(s, slow) && Expired(s, s.requests[slow].key);
      var events := HeldTwice(t, slow);
      assert SafeRun(t, events);
    }
  }

  /** Such a purge can come: a first request that runs for longer than the time to live. */
  lemma SlowHandlerRunsTwice(k: Key)
    requires k.key != ""
    ensures var s := Run(Initial(), [Arrive(0, k, 0), Find(0), Claim(0)] + [Tick(TTL_MS + 1)]);
      && Core(s) && Holds(s, 0) && Expired(s, k)
      && exists events :: Purge !in events && !OncePerLife(Run(Next(s, Purge), events))
  {
    Claims(Initial(), 0, k);
    RunAppend(Initial(), [Arrive(0, k, 0), Find(0), Claim(0)], [Tick(TTL_MS + 1)]);
    var claimed := Run(Initial(), [Arrive(0, k, 0), Find(0), Claim(0)]);
    assert [Tick(TTL_MS + 1)][..0] == [];
    var s := Run(Initial(), [Arrive(0, k, 0), Find(0), Claim(0)] + [Tick(TTL_MS + 1)]);
    assert s == Next(claimed, Tick(TTL_MS + 1));
    var events := HeldTwice(Next(s, Purge), 0);
  }

  // ----- requests and their successes -----

  lemma ToldStays(s: State, e: Event, entry: Success)
    requires Told(s, entry)
    ensures Told(Next(s, e), entry)
    ensures e.Succeed? && e.id == entry.request ==> Next(s, e) == s
  {
  }

  /** The log grows by the success of one request, if at all. */
  lemma LogGrows(s: State, e: Event)
    ensures var t := Next(s, e);
      t.log == s.log ||
      (e.Succeed? && e.id in s.requests && t.log == s.log + [t.log[|s.log|]] && t.log[|s.log|].request == e.id && Told(t, t.log[|s.log|]))
  {
  }

  lemma StepOneEach(s: State, e: Event)
    requires OneEach(s)
    ensures OneEach(Next(s, e))
  {
    var t := Next(s, e);
    LogGrows(s, e);
    forall i | 0 <= i < |t.log| ensures Told(t, t.log[i]) {
      if i < |s.log| { ToldStays(s, e, s.log[i]); }
    }
    forall i, j | 0 <= i < j < |t.log| ensures t.log[i].request != t.log[j].request {
      ToldStays(s, e, s.log[i]);
    }
  }

  /** This request with this key and body was told that it created the payload. */
  ghost predicate TellsCreated(s: State, id: nat, key: Key, hash: int, payload: int) {
    id in s.requests
    && var r := s.requests[id];
       r.key == key && r.hash == hash && r.reply == Some(Created(payload)) && (r.phase.Storing? || r.phase.Finished?)
  }

  ghost predicate CreatedFor(s: State, key: Key, hash: int, payload: int) {
    exists id :: TellsCreated(s, id, key, hash, payload)
  }

  ghost predicate RowFits(s: State, k: Key) {
    k in s.rows && s.rows[k].response.Some? ==> CreatedFor(s, k, s.rows[k].hash, s.rows[k].response.value)
  }

  ghost predicate ReplayFits(s: State, id: nat) {
    id in s.requests && s.requests[id].reply.Some? && s.requests[id].reply.value.Replayed? ==>
      CreatedFor(s, s.requests[id].key, s.requests[id].hash, s.requests[id].reply.value.payload)
  }

  ghost predicate StoringTold(s: State, id: nat) {
    id in s.requests && s.requests[id].phase.Storing? ==> s.requests[id].reply == Some(Created(s.requests[id].phase.payload))
  }

  /** What is stored for a key, or replayed to a request, was created for the same key by a request with the same body. */
  ghost predicate OwnBodies(s: State) {
    (forall k :: RowFits(s, k)) && (forall id :: ReplayFits(s, id)) && (forall id :: StoringTold(s, id))
  }

  /** A response that is stored goes into a row for a body that got that response. */
  ghost predicate StoresOwn(s: State, e: Event) {
    e.Store? && e.ok && e.id in s.requests && s.requests[e.id].phase.Storing? && s.requests[e.id].key in s.rows ==>
      var r := s.requests[e.id];
      s.rows[r.key].hash == r.hash || CreatedFor(s, r.key, s.rows[r.key].hash, r.phase.payload)
  }

  /** What was told stays told, and requests keep their keys and bodies. */
  lemma TellingStays(s: State, e: Event, key: Key, hash: int, p: int)
    ensures CreatedFor(s, key, hash, p) ==> CreatedFor(Next(s, e), key, hash, p)
  {
    if CreatedFor(s, key, hash, p) {
      var id :| TellsCreated(s, id, key, hash, p);
      assert TellsCreated(Next(s, e), id, key, hash, p);
    }
  }

  ghost predicate EndsNoHandler(e: Event) {
    e.Arrive? || e.Find? || e.Claim? || e.Store?
  }

  /** Only the end of a handler tells anything new. */
  lemma TellingIsOld(s: State, e: Event, key: Key, hash: int, p: int)
    requires EndsNoHandler(e)
    ensures CreatedFor(Next(s, e), key, hash, p) ==> CreatedFor(s, key, hash, p)
  {
    if CreatedFor(Next(s, e), key, hash, p) {
      var id :| TellsCreated(Next(s, e), id, key, hash, p);
      assert TellsCreated(s, id, key, hash, p);
    }
  }

  lemma StoringStays(s: State, e: Event)
    requires forall id :: StoringTold(s, id)
    ensures forall id :: StoringTold(Next(s, e), id)
  {
    forall id ensures StoringTold(Next(s, e), id) { assert StoringTold(s, id); }
  }

  lemma ReplaysStay(s: State, e: Event)
    requires OwnBodies(s)
    ensures forall id :: ReplayFits(Next(s, e), id)
  {
    var t := Next(s, e);
    forall id ensures ReplayFits(t, id) {
      assert ReplayFits(s, id);
      if id in t.requests && t.requests[id].reply.Some? && t.requests[id].reply.value.Replayed? {
        var r := t.requests[id];
        assert RowFits(s, r.key);
        TellingStays(s, e, r.key, r.hash, r.reply.value.payload);
      }
    }
  }

  lemma RowsStay(s: State, e: Event, k: Key)
    requires OwnBodies(s) && !(e.Store? && e.ok && e.id in s.requests && s.requests[e.id].phase.Storing? && s.requests[e.id].key == k)
    ensures RowFits(Next(s, e), k)
  {
    var t := Next(s, e);
    assert RowFits(s, k);
    if k in t.rows && t.rows[k].response.Some? {
      assert k in s.rows && t.rows[k] == s.rows[k];
      TellingStays(s, e, k, s.rows[k].hash, s.rows[k].response.value);
    }
  }

  /** A step keeps replays with their bodies if and only if it stores no response for another body. */
  lemma StepBodies(s: State, e: Event)
    requires OwnBodies(s)
    ensures OwnBodies(Next(s, e)) <==> StoresOwn(s, e)
  {
    var t := Next(s, e);
    StoringStays(s, e);
    ReplaysStay(s, e);
    forall k | !(e.Store? && e.ok && e.id in s.requests && s.requests[e.id].phase.Storing? && s.requests[e.id].key == k)
      ensures RowFits(t, k)
    {
      RowsStay(s, e, k);
    }
    if e.Store? && e.ok && e.id in s.requests && s.requests[e.id].phase.Storing? && s.requests[e.id].key in s.rows {
      StoreBodies(s, e.id);
    }
  }

  lemma StoreBodies(s: State, id: nat)
    requires OwnBodies(s) && id in s.requests && s.requests[id].phase.Storing? && s.requests[id].key in s.rows
    ensures RowFits(Next(s, Store(id, true)), s.requests[id].key) <==> StoresOwn(s, Store(id, true))
  {
    var r, t := s.requests[id], Next(s, Store(id, true));
    assert StoringTold(s, id);
    assert TellsCreated(s, id, r.key, r.hash, r.phase.payload);
    TellingStays(s, Store(id, true), r.key, s.rows[r.key].hash, r.phase.payload);
    TellingIsOld(s, Store(id, true), r.key, s.rows[r.key].hash, r.phase.payload);
    TellingStays(s, Store(id, true), r.key, r.hash, r.phase.payload);
  }

  ghost predicate AllStoreOwn(events: seq<Event>) {
    events == [] ||
    var before := events[..|events| - 1];
    AllStoreOwn(before) && StoresOwn(Run(Initial(), before), events[|events| - 1])
  }

  ghost predicate OwnThroughout(events: seq<Event>) {
    OwnBodies(Run(Initial(), events)) && (events == [] || OwnThroughout(events[..|events| - 1]))
  }

  /**
   In every interleaving, all along the run, whatever is replayed was created for the same key with
   the same body, if and only if no response is stored into a row that was inserted for another body.
   */
  lemma {:induction false} ReplayExact(events: seq<Event>)
    ensures OwnThroughout(events) <==> AllStoreOwn(events)
  {
    if events != [] {
      var before := events[..|events| - 1];
      ReplayExact(before);
      if OwnBodies(Run(Initial(), before)) { StepBodies(Run(Initial(), before), events[|events| - 1]); } else {
        NotOwn(before);
      }
    }
  }

  lemma NotOwn(events: seq<Event>)
    requires !OwnBodies(Run(Initial(), events))
    ensures !OwnThroughout(events)
  {
  }

  /** `slow` is about to store a response although its row is gone, purged say; no other body has got that response. */
  ghost predicate Belated(s: State, slow: nat, k: Key, hash: int, payload: int) {
    && k.key != "" && k !in s.rows && !CreatedFor(s, k, hash, payload)
    && slow in s.requests && s.requests[slow].key == k && s.requests[slow].phase == Storing(payload)
  }

  lemma NoneTold(s: State, a: Event, b: Event, c: Event, k: Key, hash: int, payload: int)
    requires !CreatedFor(s, k, hash, payload) && EndsNoHandler(a) && EndsNoHandler(b) && EndsNoHandler(c)
    ensures !CreatedFor(Run(s, [a, b, c]), k, hash, payload)
  {
    RunThree(s, a, b, c);
    TellingIsOld(s, a, k, hash, payload);
    TellingIsOld(Next(s, a), b, k, hash, payload);
    TellingIsOld(Next(Next(s, a), b), c, k, hash, payload);
  }

  lemma ClaimBefore(s: State, slow: nat, b: nat, k: Key, hash: int, payload: int)
    requires Belated(s, slow, k, hash, payload) && b !in s.requests
    ensures var t := Run(s, [Arrive(b, k, hash), Find(b), Claim(b)]);
      && t == Claimed(s, b, k, hash) && t.requests[slow] == s.requests[slow] && !CreatedFor(t, k, hash, payload)
  {
    Claims(s, b, k, hash);
    NoneTold(s, Arrive(b, k, hash), Find(b), Claim(b), k, hash, payload);
  }

  lemma StoreThenFind(s: State, slow: nat, c: nat, k: Key, hash: int, payload: int)
    requires slow in s.requests && s.requests[slow].key == k && s.requests[slow].phase == Storing(payload) && k.key != ""
    requires k in s.rows && s.rows[k].hash == hash && c !in s.requests && !CreatedFor(s, k, hash, payload)
    ensures var t := Run(s, [Store(slow, true), Arrive(c, k, hash), Find(c)]);
      TellsReplay(t, c, hash, payload) && !CreatedFor(t, k, hash, payload)
  {
    RunThree(s, Store(slow, true), Arrive(c, k, hash), Find(c));
    NoneTold(s, Store(slow, true), Arrive(c, k, hash), Find(c), k, hash, payload);
    var stored := Next(s, Store(slow, true));
    assert stored.rows[k] == s.rows[k].(response := Some(payload)) && c !in stored.requests;
    FindsStored(stored, c, k, hash);
    RunTwo(stored, Arrive(c, k, hash), Find(c));
  }

  /** From every such state: the response is stored into the row that another body has inserted, and replayed to that body. */
  lemma LateStoreMisleads(s: State, slow: nat, b: nat, c: nat, k: Key, hash: int, payload: int)
    requires Belated(s, slow, k, hash, payload) && b !in s.requests && c !in s.requests && b != c
    ensures var t := Run(s, [Arrive(b, k, hash), Find(b), Claim(b)] + [Store(slow, true), Arrive(c, k, hash), Find(c)]);
      TellsReplay(t, c, hash, payload) && !CreatedFor(t, k, hash, payload)
  {
    ClaimBefore(s, slow, b, k, hash, payload);
    StoreThenFind(Claimed(s, b, k, hash), slow, c, k, hash, payload);
    RunAppend(s, [Arrive(b, k, hash), Find(b), Claim(b)], [Store(slow, true), Arrive(c, k, hash), Find(c)]);
  }

  /** And there is such a state: a purge that takes the row of a stored response still on its way is a safe one. */
  lemma BelatedComes(s: State, slow: nat, k: Key, hash: int, payload: int)
    requires Core(s) && SafePurge(s) && Expired(s, k) && !CreatedFor(s, k, hash, payload)
    requires slow in s.requests && s.requests[slow].key == k && s.requests[slow].phase == Storing(payload)
    ensures Core(Next(s, Purge)) && Belated(Next(s, Purge), slow, k, hash, payload)
  {
    PurgeKeeps(s);
    var t := Next(s, Purge);
    assert t.requests == s.requests && PhaseFits(s.requests[slow]);
    if CreatedFor(t, k, hash, payload) {
      var id :| TellsCreated(t, id, k, hash, payload);
      assert TellsCreated(s, id, k, hash, payload);
    }
  }

  ghost predicate TellsReplay(s: State, id: nat, hash: int, payload: int) {
    id in s.requests && s.requests[id].hash == hash && s.requests[id].reply == Some(Replayed(payload))
  }

  /** A key lives for a day. */
  lemma KeyLivesADay(s: State, id: nat, ms: nat)
    requires id in s.requests && s.requests[id].phase.Missed? && s.requests[id].key !in s.rows
    ensures var k := s.requests[id].key;
      k in Next(Next(Next(s, Claim(id)), Tick(ms)), Purge).rows <==> ms <= 86_400_000
  {
    var claimed := Next(s, Claim(id));
    assert claimed.rows[s.requests[id].key].expiresAt == s.clock + 86_400_000;
  }

  /** Once a response is stored, another request with its key gets the same payload for the same body, and a conflict for another. */
  lemma RetryIsReplayed(s: State, id: nat, again: nat, hash: int, payload: int)
    requires id in s.requests && s.requests[id].phase.Running? && s.requests[id].key in s.rows && s.requests[id].key.key != ""
    requires s.rows[s.requests[id].key].hash == s.requests[id].hash && again !in s.requests
    ensures var t := Run(Run(s, [Succeed(id, payload), Store(id, true)]), [Arrive(again, s.requests[id].key, hash), Find(again)]);
      again in t.requests && t.requests[again].reply ==
        Some(if hash == s.requests[id].hash then Replayed(payload) else Rejected(409))
  {
    SucceedsAndStores(s, id, payload);
    FindsStored(Run(s, [Succeed(id, payload), Store(id, true)]), again, s.requests[id].key, hash);
  }

  lemma SucceedsAndStores(s: State, id: nat, payload: int)
    requires id in s.requests && s.requests[id].phase.Running? && s.requests[id].key in s.rows
    ensures var k, t := s.requests[id].key, Run(s, [Succeed(id, payload), Store(id, true)]);
      t.rows == s.rows[k := s.rows[k].(response := Some(payload))] && t.requests.Keys == s.requests.Keys
  {
    RunTwo(s, Succeed(id, payload), Store(id, true));
    var done := Next(s, Succeed(id, payload));
    assert done.requests[id].phase == Storing(payload) && done.rows == s.rows;
  }

  lemma FindsStored(s: State, again: nat, k: Key, hash: int)
    requires again !in s.requests && k.key != "" && k in s.rows && s.rows[k].response.Some?
    ensures var t := Run(s, [Arrive(again, k, hash), Find(again)]);
      again in t.requests && t.requests[again].hash == hash
      && t.requests[again].reply == Some(if hash == s.rows[k].hash then Replayed(s.rows[k].response.value) else Rejected(409))
  {
    RunTwo(s, Arrive(again, k, hash), Find(again));
    var arrived := Next(s, Arrive(again, k, hash));
    assert arrived.requests[again] == Request(k, hash, Arrived, 0, None) && arrived.rows == s.rows;
  }

  /** Of two requests that found no row the second to insert gets a conflict, and changes nothing else. */
  lemma LoserExact(s: State, id: nat)
    requires id in s.requests && s.requests[id].phase.Missed?
    ensures var r, t := s.requests[id], Next(s, Claim(id));
      && t.log == s.log && id in t.requests && (forall other :: other in s.requests && other != id ==> t.requests[other] == s.requests[other])
      && (if r.key in s.rows then t.rows == s.rows && t.requests[id].reply == Some(Rejected(409)) && t.requests[id].phase.Finished?
          else t.rows == s.rows[r.key := Row(r.hash, None, s.clock + 86_400_000)] && t.requests[id].phase.Running?)
  {
  }

  /** A request without a key is answered by its handler and leaves the key table alone. */
  lemma UnkeyedExact(s: State, id: nat, key: Key, hash: int, payload: int, status: int)
    requires id !in s.requests && key.key == ""
    ensures var t := Next(s, Arrive(id, key, hash));
      && id in Next(t, Succeed(id, payload)).requests && Next(t, Succeed(id, payload)).requests[id].reply == Some(Created(payload))
      && id in Next(t, Fail(id, status)).requests && Next(t, Fail(id, status)).requests[id].reply == Some(Rejected(status))
      && Next(t, Succeed(id, payload)).rows == s.rows && Next(t, Fail(id, status)).rows == s.rows && Next(t, Find(id)) == t
  {
  }

  /** While it runs, every other one gets a conflict. */
  lemma InFlightIsConflict(s: State, id: nat, again: nat, hash: int)
    requires id in s.requests && s.requests[id].phase.Running? && s.requests[id].key in s.rows && s.requests[id].key.key != ""
    requires s.rows[s.requests[id].key].response == None && again !in s.requests
    ensures var t := Run(s, [Arrive(again, s.requests[id].key, hash), Find(again)]);
      again in t.requests && t.requests[again].reply == Some(Rejected(409)) && t.requests[again].phase.Finished?
  {
    RunTwo(s, Arrive(again, s.requests[id].key, hash), Find(again));
  }

  /** After a failure that is released the next request with the key runs. */
  lemma FailureFreesKey(s: State, id: nat, again: nat, hash: int, status: int)
    requires id in s.requests && s.requests[id].phase.Running? && s.requests[id].key.key != "" && again !in s.requests
    ensures var k := s.requests[id].key;
      var t := Run(Run(s, [Fail(id, status), Release(id, true)]), [Arrive(again, k, hash), Find(again), Claim(again)]);
      && id in t.requests && t.requests[id].reply == Some(Rejected(status))
      && again in t.requests && t.requests[again].phase.Running? && k in t.rows && t.rows[k].hash == hash
  {
    var k := s.requests[id].key;
    RunTwo(s, Fail(id, status), Release(id, true));
    var freed := Run(s, [Fail(id, status), Release(id, true)]);
    assert k !in freed.rows && again !in freed.requests;
    Claims(freed, again, k, hash);
  }

  lemma RunTwo(s: State, a: Event, b: Event)
    ensures Run(s, [a, b]) == Next(Next(s, a), b)
  {
    assert [a, b][..1] == [a] && [a][..0] == [];
    assert Run(s, [a]) == Next(s, a);
  }

  /** What a look-up answers: a replay for the same body once the response is stored, a conflict as long as it is not, or for another body. */
  lemma LookupExact(s: State, id: nat)
    requires id in s.requests && s.requests[id].phase.Arrived? && s.requests[id].reply.None?
    ensures var r, now := s.requests[id], Next(s, Find(id)).requests[id];
      && (now.phase.Missed? <==> r.key !in s.rows)
      && (forall p :: now.reply == Some(Replayed(p)) <==>
            r.key in s.rows && s.rows[r.key].hash == r.hash && s.rows[r.key].response == Some(p))
      && (now.reply == Some(Rejected(409)) <==>
            r.key in s.rows && (s.rows[r.key].hash != r.hash || s.rows[r.key].response.None?))
  {
  }

  // ----- end to end -----

  datatype Progress = Idle | Waiting(id: nat) | Returned(payload: int) | Threw(status: int)

  /** One call of `send`: its key and body stay the same over all attempts, the requests `sent`. */
  datatype Client = Client(key: Key, hash: int, maxRetries: nat, tries: nat, sent: set<nat>, progress: Progress)

  datatype System = System(server: State, client: Client)

  /** The network delivers or loses replies; everything else on the server happens as it may. */
  datatype Move = Server(e: Event) | Dispatch(id: nat) | Deliver | Lose

  /** The retry loop's own decision, after the attempt that ended with an error. */
  ghost function React(c: Client, status: int): Client {
    if SdkClient.Again(SdkClient.Error(status), "POST", c.key.key, c.tries, c.maxRetries) then c.(progress := Idle)
    else c.(progress := Threw(status))
  }

  ghost function Received(c: Client, reply: Reply): Client {
    match reply
    case Created(p) => c.(progress := Returned(p))
    case Replayed(p) => c.(progress := Returned(p))
    case Rejected(status) => React(c, status)
  }

  ghost function Step(sys: System, m: Move): System {
    var c := sys.client;
    match m
    case Server(e) => sys.(server := Next(sys.server, e))
    case Dispatch(id) =>
      if c.progress.Idle? && id !in sys.server.requests then
        System(Next(sys.server, Arrive(id, c.key, c.hash)), c.(tries := c.tries + 1, sent := c.sent + {id}, progress := Waiting(id)))
      else sys
    case Deliver =>
      if c.progress.Waiting? && c.progress.id in sys.server.requests && sys.server.requests[c.progress.id].reply.Some?
      then sys.(client := Received(c, sys.server.requests[c.progress.id].reply.value))
      else sys
    case Lose => if c.progress.Waiting? then sys.(client := React(c, SdkClient.TRANSPORT_FAILURE)) else sys
  }

  ghost function Start(key: Key, hash: int, maxRetries: nat): System {
    System(Initial(), Client(key, hash, maxRetries, 0, {}, Idle))
  }

  ghost function Play(sys: System, moves: seq<Move>): System {
    if moves == [] then sys else Step(Play(sys, moves[..|moves| - 1]), moves[|moves| - 1])
  }

  ghost predicate SafePlay(sys: System, moves: seq<Move>) {
    forall n :: 0 <= n < |moves| && moves[n] == Server(Purge) ==> SafePurge(Play(sys, moves[..n]).server)
  }

  /** What an attempt came back with, as the retry loop sees it. */
  ghost function After(c: Client, o: SdkClient.Outcome): Client {
    match o
    case Ok(p) => c.(progress := Returned(p))
    case Error(status) => React(c, status)
  }

  /** The client of the runs below is the loop of `send`: it goes on, returns and throws where that does. */
  lemma ClientIsSend(
      c: Client, supplied: Option<string>, generated: string, outcomes: seq<SdkClient.Outcome>, result: SdkClient.Outcome, attempts: nat)
    requires SdkClient.Sent("POST", supplied, generated, c.maxRetries, outcomes, result, attempts, c.key.key)
    requires 1 <= c.tries <= attempts
    ensures After(c, outcomes[c.tries - 1]) ==
      if c.tries < attempts then c.(progress := Idle)
      else match result case Ok(p) => c.(progress := Returned(p)) case Error(status) => c.(progress := Threw(status))
  {
  }

  /** The requests sent are this call's, and without a key there is one at most. */
  ghost predicate SentInv(sys: System) {
    var c := sys.client;
    && (forall id :: id in c.sent ==> id in sys.server.requests && sys.server.requests[id].key == c.key)
    && (c.key.key == "" ==> c.tries <= 1 && forall id, other :: id in c.sent && other in c.sent ==> id == other)
    && (c.key.key == "" && c.progress.Idle? ==> c.tries == 0)
    && (c.tries == 0 ==> c.sent == {})
    && (c.progress.Waiting? ==> c.progress.id in c.sent)
  }

  ghost predicate ClientInv(sys: System) {
    var c := sys.client;
    && c.tries <= c.maxRetries + 1
    && (c.progress.Idle? ==> c.tries <= c.maxRetries)
    && (c.progress.Waiting? ==> c.progress.id in sys.server.requests && sys.server.requests[c.progress.id].key == c.key)
    && (c.progress.Returned? ==> Logged(sys.server.log, c.key, c.progress.payload))
    && (c.progress.Returned? && c.key.key == "" ==> LoggedBy(sys.server.log, c.sent, c.progress.payload))
  }

  /** One of these requests succeeded with the payload. */
  ghost predicate LoggedBy(log: seq<Success>, sent: set<nat>, payload: int) {
    exists i :: 0 <= i < |log| && log[i].request in sent && log[i].payload == payload
  }

  lemma LoggedStays(log: seq<Success>, longer: seq<Success>, sent: set<nat>, payload: int)
    requires log <= longer && LoggedBy(log, sent, payload)
    ensures LoggedBy(longer, sent, payload)
  {
    var i :| 0 <= i < |log| && log[i].request in sent && log[i].payload == payload;
    assert longer[i] == log[i];
  }

  lemma KeyLoggedStays(log: seq<Success>, longer: seq<Success>, key: Key, payload: int)
    requires log <= longer && Logged(log, key, payload)
    ensures Logged(longer, key, payload)
  {
    var life: nat, request: nat :| Success(key, life, payload, request) in log;
    assert Success(key, life, payload, request) in longer;
  }

  lemma RequestsStay(s: State, e: Event)
    ensures forall id :: id in s.requests ==> id in Next(s, e).requests && Next(s, e).requests[id].key == s.requests[id].key
    ensures s.log <= Next(s, e).log
  {
  }

  lemma ServerKeepsClient(sys: System, e: Event)
    requires ClientInv(sys) && SentInv(sys)
    ensures ClientInv(System(Next(sys.server, e), sys.client)) && SentInv(System(Next(sys.server, e), sys.client))
  {
    RequestsStay(sys.server, e);
    var c := sys.client;
    if c.progress.Returned? {
      KeyLoggedStays(sys.server.log, Next(sys.server, e).log, c.key, c.progress.payload);
      if c.key.key == "" { LoggedStays(sys.server.log, Next(sys.server, e).log, c.sent, c.progress.payload); }
    }
  }

  /** A request without a key is answered by its own handler. */
  ghost predicate OwnAnswer(s: State, id: nat) {
    id in s.requests && s.requests[id].key.key == "" && s.requests[id].reply.Some? ==>
      && !s.requests[id].reply.value.Replayed?
      && (s.requests[id].reply.value.Created? ==> LoggedBy(s.log, {id}, s.requests[id].reply.value.payload))
  }

  ghost predicate UnkeyedTold(s: State) {
    forall id :: OwnAnswer(s, id)
  }

  /** A step answers one request at most: with its own success, or with none if it has no key. */
  lemma AnswerIsOwn(s: State, e: Event, id: nat)
    requires PhasesFit(s) && id in Next(s, e).requests && Next(s, e).requests[id].key.key == ""
    ensures var now := Next(s, e).requests[id].reply;
      || (id in s.requests && s.requests[id].key.key == "" && now == s.requests[id].reply)
      || now.None? || now.value.Rejected?
      || (now.value.Created? && |s.log| < |Next(s, e).log| && Next(s, e).log[|s.log|].request == id
          && Next(s, e).log[|s.log|].payload == now.value.payload)
  {
  }

  lemma StepUnkeyed(s: State, e: Event)
    requires UnkeyedTold(s) && PhasesFit(s)
    ensures UnkeyedTold(Next(s, e))
  {
    var t := Next(s, e);
    RequestsStay(s, e);
    forall id ensures OwnAnswer(t, id) {
      if id in t.requests && t.requests[id].key.key == "" {
        AnswerIsOwn(s, e, id);
        assert OwnAnswer(s, id);
        if id in s.requests && s.requests[id].reply.Some? && s.requests[id].reply.value.Created? && t.requests[id].reply == s.requests[id].reply {
          LoggedStays(s.log, t.log, {id}, s.requests[id].reply.value.payload);
        }
      }
    }
  }

  ghost predicate SystemInv(sys: System) {
    && Core(sys.server) && Honest(sys.server) && OneEach(sys.server) && UnkeyedTold(sys.server)
    && ClientInv(sys) && SentInv(sys)
  }

  lemma ServerSteps(s: State, e: Event)
    requires Core(s) && Honest(s) && OneEach(s) && UnkeyedTold(s) && (e == Purge ==> SafePurge(s))
    ensures Core(Next(s, e)) && Honest(Next(s, e)) && OneEach(Next(s, e)) && UnkeyedTold(Next(s, e))
  {
    StepKeeps(s, e);
    StepHonest(s, e);
    StepOneEach(s, e);
    StepUnkeyed(s, e);
  }

  lemma PlayStep(sys: System, m: Move)
    requires SystemInv(sys) && (m == Server(Purge) ==> SafePurge(sys.server))
    ensures SystemInv(Step(sys, m))
    ensures Step(sys, m).client.key == sys.client.key && Step(sys, m).client.maxRetries == sys.client.maxRetries
  {
    match m {
      case Server(e) => ServerSteps(sys.server, e); ServerKeepsClient(sys, e);
      case Dispatch(id) =>
        ServerSteps(sys.server, Arrive(id, sys.client.key, sys.client.hash));
        DispatchKeeps(sys, id);
      case Deliver => DeliverKeeps(sys);
      case Lose =>
    }
  }

  lemma DispatchKeeps(sys: System, id: nat)
    requires ClientInv(sys) && SentInv(sys)
    ensures ClientInv(Step(sys, Dispatch(id))) && SentInv(Step(sys, Dispatch(id)))
  {
  }

  lemma DeliverKeeps(sys: System)
    requires Honest(sys.server) && UnkeyedTold(sys.server) && ClientInv(sys) && SentInv(sys)
    ensures ClientInv(Step(sys, Deliver)) && SentInv(Step(sys, Deliver))
  {
    if sys.client.progress.Waiting? {
      var id := sys.client.progress.id;
      assert RequestLogged(sys.server.log, sys.server.requests[id]) && OwnAnswer(sys.server, id);
      if sys.client.key.key == "" && sys.server.requests[id].reply.Some? && sys.server.requests[id].reply.value.Created? {
        var p := sys.server.requests[id].reply.value.payload;
        var i :| 0 <= i < |sys.server.log| && sys.server.log[i].request in {id} && sys.server.log[i].payload == p;
        assert LoggedBy(sys.server.log, sys.client.sent, p);
      }
    }
  }

  lemma {:induction false} PlayKeeps(key: Key, hash: int, maxRetries: nat, moves: seq<Move>)
    requires SafePlay(Start(key, hash, maxRetries), moves)
    ensures var sys := Play(Start(key, hash, maxRetries), moves);
      SystemInv(sys) && sys.client.key == key && sys.client.maxRetries == maxRetries
  {
    if moves != [] {
      var before := moves[..|moves| - 1];
      assert forall n :: 0 <= n < |before| ==> before[..n] == moves[..n] && before[n] == moves[n];
      PlayKeeps(key, hash, maxRetries, before);
      PlayStep(Play(Start(key, hash, maxRetries), before), moves[|moves| - 1]);
    }
  }

  /**
   Whatever responses are lost and however attempts interleave, a call of `send` for a POST makes
   at most maxRetries + 1 attempts, and one if its key is empty; while the key has not been purged
   its attempts succeed at most once; if the call returns, the operation of its key succeeded
   exactly once, with the payload that is returned, or its one attempt did if it has no key.
   */
  lemma EndToEnd(key: Key, supplied: Option<string>, generated: string, hash: int, maxRetries: nat, moves: seq<Move>)
    requires SdkClient.Carries("POST", supplied, generated, key.key) && SafePlay(Start(key, hash, maxRetries), moves)
    ensures Play(Start(key, hash, maxRetries), moves).client.tries <= maxRetries + 1
    ensures AtMostOneSucceeded(Play(Start(key, hash, maxRetries), moves), key)
    ensures ExactlyReturned(Play(Start(key, hash, maxRetries), moves), key)
    ensures (supplied == Some("") || (supplied == None && generated == "")) ==>
      UnkeyedReturned(Play(Start(key, hash, maxRetries), moves))
  {
    PlayKeeps(key, hash, maxRetries, moves);
    var sys := Play(Start(key, hash, maxRetries), moves);
    if key.key != "" { ReturnedOnce(sys, key); }
    SentOnce(sys, key);
  }

  lemma SentOnce(sys: System, key: Key)
    requires SystemInv(sys) && sys.client.key == key
    ensures AtMostOneSucceeded(sys, key)
  {
    var s := sys.server;
    forall i | 0 <= i < |s.log| && s.log[i].request in sys.client.sent ensures s.log[i].key == key { assert Told(s, s.log[i]); }
    assert forall i :: 0 <= i < |s.log| ==> s.log[i].life <= Life(s.lives, s.log[i].key);
  }

  ghost predicate BothSent(sys: System, i: int, j: int) {
    && 0 <= i < |sys.server.log| && 0 <= j < |sys.server.log|
    && sys.server.log[i].request in sys.client.sent && sys.server.log[j].request in sys.client.sent
  }

  /** The operation has been done once at most, whichever attempt did it. */
  ghost predicate AtMostOneSucceeded(sys: System, key: Key) {
    Life(sys.server.lives, key) == 0 ==> forall i, j :: 0 <= i < j < |sys.server.log| ==> !BothSent(sys, i, j)
  }

  /** Without a key there is one attempt at most, and what is returned is its success. */
  ghost predicate UnkeyedReturned(sys: System) {
    && sys.client.tries <= 1
    && (sys.client.progress.Returned? ==> LoggedBy(sys.server.log, sys.client.sent, sys.client.progress.payload))
  }

  ghost predicate ExactlyReturned(sys: System, key: Key) {
    Life(sys.server.lives, key) == 0 && key.key != "" ==>
      var done := Successes(sys.server.log, key);
      && |done| <= 1
      && (sys.client.progress.Returned? ==> |done| == 1 && done[0].payload == sys.client.progress.payload)
  }

  lemma ReturnedOnce(sys: System, key: Key)
    requires SystemInv(sys) && sys.client.key == key && key.key != ""
    ensures ExactlyReturned(sys, key)
  {
    if Life(sys.server.lives, key) == 0 {
      OneSuccess(sys.server.log, key);
      if sys.client.progress.Returned? {
        var life: nat, request: nat :| Success(key, life, sys.client.progress.payload, request) in sys.server.log;
        SuccessListed(sys.server.log, key, Success(key, life, sys.client.progress.payload, request));
      }
    }
  }

  /** The successes of one key, in order. */
  ghost function Successes(log: seq<Success>, key: Key): seq<Success> {
    if log == [] then []
    else (if log[0].key == key then [log[0]] else []) + Successes(log[1..], key)
  }

  lemma {:induction false} SuccessListed(log: seq<Success>, key: Key, entry: Success)
    requires entry in log && entry.key == key
    ensures entry in Successes(log, key)
  {
    if log[0] != entry { SuccessListed(log[1..], key, entry); }
  }

  lemma {:induction false} NoSuccess(log: seq<Success>, key: Key)
    requires forall i :: 0 <= i < |log| ==> log[i].key != key
    ensures Successes(log, key) == []
  {
    if log != [] { NoSuccess(log[1..], key); }
  }

  lemma {:induction false} OneSuccess(log: seq<Success>, key: Key)
    requires forall i, j :: 0 <= i < j < |log| && log[i].key.key != "" ==> log[i].key != log[j].key || log[i].life != log[j].life
    requires key.key != "" && forall i :: 0 <= i < |log| && log[i].key == key ==> log[i].life == 0
    ensures |Successes(log, key)| <= 1
    ensures forall e :: e in Successes(log, key) ==> e.key == key && e.life == 0
  {
    if log != [] {
      if log[0].key == key {
        NoSuccess(log[1..], key);
      } else {
        OneSuccess(log[1..], key);
      }
    }
  }
}
