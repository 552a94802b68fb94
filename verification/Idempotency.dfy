/**
 Idempotency keys on creating requests.

 A request is a process whose database calls interleave with those of other requests: it looks
 the key up, inserts the key row (unique per organization, key and endpoint), runs the handler,
 and then stores the response or releases the key. A process can die between any two calls, the
 store and the release can fail silently, and an hourly job purges expired rows. A request whose
 key is empty only runs the handler.
 */
module Idempotency {
  import opened Options

  const TTL_MS := 86_400_000
  const CONFLICT := 409

  datatype Key = Key(organization: nat, key: string, endpoint: string)

  datatype Row = Row(hash: int, response: Option<int>, expiresAt: int)

  /** What the client is told: the handler's payload, a stored one, or an error status. */
  datatype Reply = Created(payload: int) | Replayed(payload: int) | Rejected(status: int)

  datatype Phase =
    | Unkeyed                  // without a key, handler in progress
    | Arrived
    | Missed                   // found no row
    | Running                  // inserted the row, handler in progress
    | Storing(payload: int)    // handler succeeded, response not stored yet
    | Releasing                // handler failed, row not deleted yet
    | Finished

  datatype Request = Request(key: Key, hash: int, phase: Phase, claimedAt: int, reply: Option<Reply>)

  /** One success of a handler, for the request `request`, in the given life of its key: lives are separated by purges. */
  datatype Success = Success(key: Key, life: nat, payload: int, request: nat)

  datatype State = State(rows: map<Key, Row>, requests: map<nat, Request>, clock: int, lives: map<Key, nat>, log: seq<Success>)

  datatype Event =
    | Arrive(id: nat, key: Key, hash: int)
    | Find(id: nat)
    | Claim(id: nat)
    | Succeed(id: nat, payload: int)
    | Fail(id: nat, status: int)
    | Store(id: nat, ok: bool)
    | Release(id: nat, ok: bool)
    | Crash(id: nat)
    | Purge
    | Tick(ms: nat)

  function Initial(): State {
    State(map[], map[], 0, map[], [])
  }

  function Life(lives: map<Key, nat>, key: Key): nat {
    if key in lives then lives[key] else 0
  }

  predicate Expired(s: State, key: Key) {
    key in s.rows && s.rows[key].expiresAt < s.clock
  }

  function Found(s: State, r: Request): Request {
    if r.key !in s.rows then r.(phase := Missed)
    else if s.rows[r.key].hash != r.hash then r.(phase := Finished, reply := Some(Rejected(CONFLICT)))
    else if s.rows[r.key].response.Some? then r.(phase := Finished, reply := Some(Replayed(s.rows[r.key].response.value)))
    else r.(phase := Finished, reply := Some(Rejected(CONFLICT)))
  }

  /** The handler's success is logged. */
  function Logs(s: State, r: Request, id: nat, payload: int): State {
    s.(log := s.log + [Success(r.key, Life(s.lives, r.key), payload, id)])
  }

  function Put(s: State, id: nat, r: Request): State {
    s.(requests := s.requests[id := r])
  }

  function Purged(s: State): State {
    s.(rows := map k | k in s.rows && !Expired(s, k) :: s.rows[k],
       lives := map k | k in s.lives.Keys + s.rows.Keys ::
         Life(s.lives, k) + (if Expired(s, k) then 1 else 0))
  }

  /** An event of a request that is not in the matching phase does nothing. */
  function Next(s: State, e: Event): State {
    match e
    case Arrive(id, key, hash) =>
      if id in s.requests then s else Put(s, id, Request(key, hash, if key.key == "" then Unkeyed else Arrived, 0, None))
    case Purge => Purged(s)
    case Tick(ms) => s.(clock := s.clock + ms)
    case _ => if e.id in s.requests then Advance(s, e, s.requests[e.id]) else s
  }

  function Advance(s: State, e: Event, r: Request): State
    requires !e.Purge? && !e.Tick?
  {
    match (e, r.phase)
    case (Find(id), Arrived) => Put(s, id, Found(s, r))
    case (Claim(id), Missed) =>
      if r.key in s.rows then Put(s, id, r.(phase := Finished, reply := Some(Rejected(CONFLICT))))
      else Put(s, id, r.(phase := Running, claimedAt := s.clock))
           .(rows := s.rows[r.key := Row(r.hash, None, s.clock + TTL_MS)])
    case (Succeed(id, payload), Running) =>
      Logs(Put(s, id, r.(phase := Storing(payload), reply := Some(Created(payload)))), r, id, payload)
    case (Succeed(id, payload), Unkeyed) =>
      Logs(Put(s, id, r.(phase := Finished, reply := Some(Created(payload)))), r, id, payload)
    case (Fail(id, status), Unkeyed) => Put(s, id, r.(phase := Finished, reply := Some(Rejected(status))))
    case (Fail(id, status), Running) => Put(s, id, r.(phase := Releasing, reply := Some(Rejected(status))))
    case (Store(id, ok), Storing(payload)) =>
      Put(s, id, r.(phase := Finished))
      .(rows := if ok && r.key in s.rows then s.rows[r.key := s.rows[r.key].(response := Some(payload))] else s.rows)
    case (Release(id, ok), Releasing) =>
      Put(s, id, r.(phase := Finished)).(rows := if ok then s.rows - {r.key} else s.rows)
    case (Crash(id), _) => Put(s, id, r.(phase := Finished))
    case _ => s
  }

  function Run(s: State, events: seq<Event>): State {
    if events == [] then s else Next(Run(s, events[..|events| - 1]), events[|events| - 1])
  }

  /** The interceptor, one method per stretch between two awaits. */
  class Interceptor {
    var rows: map<Key, Row>
    var requests: map<nat, Request>
    var clock: int
    var lives: map<Key, nat>
    ghost var log: seq<Success>

    ghost function View(): State
      reads this
    {
      State(rows, requests, clock, lives, log)
    }

    constructor ()
      ensures View() == Initial()
    {
      rows, requests, clock, lives, log := map[], map[], 0, map[], [];
    }

    /** The entry of `intercept`; without a key the handler is called right away, and nothing else is done. */
    method Enter(id: nat, key: Key, hash: int)
      requires id !in requests
      modifies this
      ensures View() == Next(old(View()), Arrive(id, key, hash))
    {
      var phase := Arrived;
      if key.key == "" { phase := Unkeyed; }
      requests := requests[id := Request(key, hash, phase, 0, None)];
    }

    method HandleUnkeyed(id: nat, result: Reply)
      requires id in requests && requests[id].phase == Unkeyed && !result.Replayed?
      modifies this
      ensures View() == Next(old(View()), match result case Created(p) => Succeed(id, p) case Rejected(status) => Fail(id, status))
    {
      var r := requests[id];
      if result.Created? { log := log + [Success(r.key, Life(lives, r.key), result.payload, id)]; }
      requests := requests[id := r.(phase := Finished, reply := Some(result))];
    }

    method Lookup(id: nat)
      requires id in requests && requests[id].phase == Arrived
      modifies this
      ensures View() == Next(old(View()), Find(id))
    {
      var r := requests[id];
      if r.key in rows {
        var existing := rows[r.key];
        var reply := Rejected(CONFLICT);
        if existing.hash == r.hash && existing.response.Some? {
          reply := Replayed(existing.response.value);
        }
        requests := requests[id := r.(phase := Finished, reply := Some(reply))];
      } else {
        requests := requests[id := r.(phase := Missed)];
      }
    }

    method Insert(id: nat)
      requires id in requests && requests[id].phase == Missed
      modifies this
      ensures View() == Next(old(View()), Claim(id))
    {
      var r := requests[id];
      if r.key in rows {
        requests := requests[id := r.(phase := Finished, reply := Some(Rejected(CONFLICT)))];
        return;
      }
      rows := rows[r.key := Row(r.hash, None, clock + TTL_MS)];
      requests := requests[id := r.(phase := Running, claimedAt := clock)];
    }

    method OnNext(id: nat, payload: int)
      requires id in requests && requests[id].phase == Running
      modifies this
      ensures View() == Next(old(View()), Succeed(id, payload))
    {
      var r := requests[id];
      log := log + [Success(r.key, Life(lives, r.key), payload, id)];
      requests := requests[id := r.(phase := Storing(payload), reply := Some(Created(payload)))];
    }

    method StoreResponse(id: nat, ok: bool)
      requires id in requests && requests[id].phase.Storing?
      modifies this
      ensures View() == Next(old(View()), Store(id, ok))
    {
      var r := requests[id];
      if ok && r.key in rows {
        rows := rows[r.key := rows[r.key].(response := Some(r.phase.payload))];
      }
      requests := requests[id := r.(phase := Finished)];
    }

    method OnError(id: nat, status: int)
      requires id in requests && requests[id].phase == Running
      modifies this
      ensures View() == Next(old(View()), Fail(id, status))
    {
      requests := requests[id := requests[id].(phase := Releasing, reply := Some(Rejected(status)))];
    }

    method ReleaseKey(id: nat, ok: bool)
      requires id in requests && requests[id].phase == Releasing
      modifies this
      ensures View() == Next(old(View()), Release(id, ok))
    {
      var r := requests[id];
      if ok { rows := rows - {r.key}; }
      requests := requests[id := r.(phase := Finished)];
    }

    method PurgeExpired()
      modifies this
      ensures View() == Next(old(View()), Purge)
    {
      lives := map k | k in lives.Keys + rows.Keys ::
        Life(lives, k) + (if k in rows && rows[k].expiresAt < clock then 1 else 0);
      rows := map k | k in rows && !(rows[k].expiresAt < clock) :: rows[k];
    }
  }
}

/** The SDK's retry loop around one request. */
module SdkClient {
  import opened Options

  datatype Outcome = Ok(payload: int) | Error(status: int)

  const TRANSPORT_FAILURE := 503

  predicate IsRetryable(status: int) {
    status == 429 || status >= 500
  }

  predicate Mutating(verb: string) {
    verb !in ["GET", "HEAD", "DELETE"]
  }

  /** Whether an outcome may be tried again: a mutating request only because of its key. */
  predicate Retries(o: Outcome, verb: string, key: string) {
    o.Error? && IsRetryable(o.status) && !(Mutating(verb) && key == "")
  }

  /** What the loop does with the outcome of its `attempt`-th attempt. */
  predicate Again(o: Outcome, verb: string, key: string, attempt: nat, maxRetries: nat) {
    Retries(o, verb, key) && attempt <= maxRetries
  }

  /** A request that may not be repeated without a key is given the caller's, or a fresh one. */
  ghost predicate Carries(verb: string, supplied: Option<string>, generated: string, key: string) {
    if verb in ["GET", "HEAD", "DELETE"] then key == ""
    else key == if supplied.Some? then supplied.value else generated
  }

  ghost predicate Repeatable(o: Outcome) {
    o.Error? && (o.status == 429 || 500 <= o.status)
  }

  /**
   One call of `send`, where attempt i would come back with `outcomes[i]`: it stops at the first
   outcome that is no error to repeat, at the last retry, or at once if the request is not safe and
   has no key.
   */
  ghost predicate Sent(
      verb: string, supplied: Option<string>, generated: string, maxRetries: nat, outcomes: seq<Outcome>,
      result: Outcome, attempts: nat, key: string)
  {
    && |outcomes| > maxRetries && 1 <= attempts <= maxRetries + 1 && result == outcomes[attempts - 1]
    && Carries(verb, supplied, generated, key)
    && (forall i :: 0 <= i < attempts - 1 ==> Repeatable(outcomes[i]))
    && (attempts > 1 ==> verb in ["GET", "HEAD", "DELETE"] || key != "")
    && (Repeatable(result) && attempts <= maxRetries ==> verb !in ["GET", "HEAD", "DELETE"] && key == "")
  }

  method Send(verb: string, supplied: Option<string>, generated: string, maxRetries: nat, outcomes: seq<Outcome>)
    returns (result: Outcome, attempts: nat, key: string)
    requires |outcomes| > maxRetries
    ensures Sent(verb, supplied, generated, maxRetries, outcomes, result, attempts, key)
  {
    key := "";
    if Mutating(verb) {
      key := match supplied case Some(k) => k case None => generated;
    }
    var lastError := None;
    for attempt := 0 to maxRetries + 1
      invariant forall i :: 0 <= i < attempt ==> Repeatable(outcomes[i])
      invariant attempt > 0 ==> lastError == Some(outcomes[attempt - 1]) && !(Mutating(verb) && key == "")
    {
      var outcome := outcomes[attempt];
      if outcome.Ok? { return outcome, attempt + 1, key; }
      if !IsRetryable(outcome.status) { return outcome, attempt + 1, key; }
      if Mutating(verb) && key == "" { return outcome, attempt + 1, key; }
      lastError := Some(outcome);
    }
    return lastError.value, maxRetries + 1, key;
  }
}
