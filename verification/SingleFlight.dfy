/**
 The browser client: requests that meet a 401 share one refresh and are then sent again.

 The client's state changes at its own awaits, the server's at its database calls; the moves of
 both interleave freely. `SingleFlight` holds for every run in which no new token is lost on its
 way to the client; `LosingExact` and `LostAnswerIsReuse` show what losing one does.
 */
module SingleFlight {
  import opened Options
  import opened Sessions
  import SessionProofs

  /** A refresh call: posted, approved by the server's checks, its old session revoked, or answered. */
  datatype Stage = Posted | Approved | Retiring | Answered(renewed: Option<nat>)

  datatype Flight = Flight(token: nat, stage: Stage)

  datatype Phase = Sent | Awaiting(call: nat) | Resent | Settled

  /** `stored` is the refresh token kept, `inFlight` the variable through which 401s find a running refresh. */
  datatype Client = Client(stored: Option<nat>, inFlight: Option<nat>, flights: map<nat, Flight>, requests: map<nat, Phase>)

  /** A request's 401: join the refresh in flight, or start one with the stored token. */
  function Unauthorized(c: Client, r: nat, call: nat): Client {
    if c.stored.None? then c.(requests := c.requests[r := Settled])
    else
      match c.inFlight
      case Some(running) => c.(requests := c.requests[r := Awaiting(running)])
      case None =>
        Client(c.stored, Some(call), c.flights[call := Flight(c.stored.value, Posted)], c.requests[r := Awaiting(call)])
  }

  /** The refresh is over: everyone who waited for it goes on, sending again if it succeeded. */
  function Landed(c: Client, call: nat, stored: Option<nat>, ok: bool): Client {
    Client(stored, None, c.flights - {call},
           map r | r in c.requests :: if c.requests[r] == Awaiting(call) then (if ok then Resent else Settled) else c.requests[r])
  }

  class Browser {
    var stored: Option<nat>
    var inFlight: Option<nat>
    var flights: map<nat, Flight>
    var requests: map<nat, Phase>

    ghost function View(): Client
      reads this
    {
      Client(stored, inFlight, flights, requests)
    }

    /** `refreshSession` up to its await. */
    method RefreshSession(r: nat, call: nat)
      modifies this
      ensures View() == Unauthorized(old(View()), r, call)
    {
      if stored.None? {
        requests := requests[r := Settled];
        return;
      }
      if inFlight.None? {
        inFlight := Some(call);
        flights := flights[call := Flight(stored.value, Posted)];
      }
      requests := requests[r := Awaiting(inFlight.value)];
    }

    /** The rest of it: keep the new tokens, or drop the old ones if the server refused. */
    method FinishRefresh(call: nat)
      requires call in flights && flights[call].stage.Answered?
      modifies this
      ensures View() == Landed(old(View()), call, old(flights)[call].stage.renewed, old(flights)[call].stage.renewed.Some?)
    {
      var renewed := flights[call].stage.renewed;
      stored := renewed;
      inFlight := None;
      flights := flights - {call};
      var ok := renewed.Some?;
      requests := map r | r in requests :: if requests[r] == Awaiting(call) then (if ok then Resent else Settled) else requests[r];
    }

    /** A transport failure: the tokens stay as they are. */
    method AbandonRefresh(call: nat)
      modifies this
      ensures View() == Landed(old(View()), call, old(stored), false)
    {
      inFlight := None;
      flights := flights - {call};
      requests := map r | r in requests :: if requests[r] == Awaiting(call) then Settled else requests[r];
    }
  }

  // ----- client and server together -----

  datatype Web = Web(client: Client, server: State, user: nat)

  datatype Move =
    | Issue(r: nat)
    | Meets401(r: nat, call: nat)
    | Answer(r: nat)
    | PostLost(call: nat)
    | ServerChecks(call: nat, member: bool)
    | ServerRetires(call: nat)
    | ServerReplaces(call: nat, ttl: nat)
    | ServerDies(call: nat)
    | AnswerLost(call: nat)
    | Receive(call: nat)
    | Elsewhere(e: Event)

  predicate Mine(w: Web, id: nat) {
    id < |w.server.sessions| && w.server.sessions[id].user == w.user
  }

  /** Server events that concern neither this user's sessions nor this client's calls. */
  predicate Foreign(w: Web, e: Event) {
    match e
    case Login(user, _) => user != w.user
    case Check(call, token, _) => call !in w.client.flights && !Mine(w, token)
    case Retire(call) => call in w.server.pending && !Mine(w, w.server.pending[call].token)
    case Replace(call, _) => call in w.server.pending && !Mine(w, w.server.pending[call].token)
    case Die(call) => call in w.server.pending && !Mine(w, w.server.pending[call].token)
    case Logout(token) => !Mine(w, token)
    case RevokeAll(user) => user != w.user
    case Tick(_) => true
  }

  function Stages(c: Client, call: nat, stage: Stage): Client
    requires call in c.flights
  {
    c.(flights := c.flights[call := c.flights[call].(stage := stage)])
  }

  function Step(w: Web, m: Move): Web {
    var c := w.client;
    match m
    case Issue(r) => if r in c.requests then w else w.(client := c.(requests := c.requests[r := Sent]))
    case Meets401(r, call) =>
      if r in c.requests && c.requests[r] == Sent && call !in c.flights && call !in w.server.pending
      then w.(client := Unauthorized(c, r, call)) else w
    case Answer(r) =>
      if r in c.requests && (c.requests[r] == Sent || c.requests[r] == Resent)
      then w.(client := c.(requests := c.requests[r := Settled])) else w
    case PostLost(call) =>
      if call in c.flights && c.flights[call].stage.Posted? then w.(client := Landed(c, call, c.stored, false)) else w
    case ServerChecks(call, member) =>
      if call in c.flights && c.flights[call].stage.Posted? then
        var server := Next(w.server, Check(call, c.flights[call].token, member));
        w.(server := server,
           client := Stages(c, call, if call in server.pending then Approved else Answered(None)))
      else w
    case ServerRetires(call) =>
      if call in c.flights && c.flights[call].stage.Approved? then
        w.(server := Next(w.server, Retire(call)), client := Stages(c, call, Retiring))
      else w
    case ServerReplaces(call, ttl) =>
      if call in c.flights && c.flights[call].stage.Retiring? then
        w.(server := Next(w.server, Replace(call, ttl)), client := Stages(c, call, Answered(Some(|w.server.sessions|))))
      else w
    case ServerDies(call) =>
      if call in c.flights && (c.flights[call].stage.Approved? || c.flights[call].stage.Retiring?) then
        w.(server := Next(w.server, Die(call)), client := Landed(c, call, c.stored, false))
      else w
    case AnswerLost(call) =>
      if call in c.flights && c.flights[call].stage.Answered? then w.(client := Landed(c, call, c.stored, false)) else w
    case Receive(call) =>
      if call in c.flights && c.flights[call].stage.Answered? then
        w.(client := Landed(c, call, c.flights[call].stage.renewed, c.flights[call].stage.renewed.Some?))
      else w
    case Elsewhere(e) => if Foreign(w, e) then w.(server := Next(w.server, e)) else w
  }

  ghost function Play(w: Web, moves: seq<Move>): Web {
    if moves == [] then w else Step(Play(w, moves[..|moves| - 1]), moves[|moves| - 1])
  }

  // ----- invariants -----

  /** The user has one unrevoked session at most. */
  ghost predicate OneLive(w: Web) {
    forall i: nat, j: nat :: Mine(w, i) && Live(w.server, i) && Mine(w, j) && Live(w.server, j) ==> i == j
  }

  ghost predicate FlightOk(w: Web, call: nat, f: Flight) {
    && w.client.stored == Some(f.token) && Mine(w, f.token)
    && match f.stage
       case Posted => Live(w.server, f.token) && call !in w.server.pending
       case Approved => Live(w.server, f.token) && call in w.server.pending && w.server.pending[call] == Exchange(f.token, false)
       case Retiring => !Live(w.server, f.token) && call in w.server.pending && w.server.pending[call] == Exchange(f.token, true)
       case Answered(renewed) =>
         && call !in w.server.pending
         && match renewed
            case Some(token) => Mine(w, token) && Live(w.server, token) && !Live(w.server, f.token)
            case None => Live(w.server, f.token)
  }

  ghost predicate WebInv(w: Web) {
    var c := w.client;
    && OneLive(w) && w.user !in w.server.reuses
    && c.flights.Keys == (if c.inFlight.Some? then {c.inFlight.value} else {})
    && (forall call :: call in c.flights ==> FlightOk(w, call, c.flights[call]))
    && (c.inFlight.None? && c.stored.Some? ==> Mine(w, c.stored.value) && Live(w.server, c.stored.value))
    && (forall call :: call in w.server.pending ==>
          w.server.pending[call].token < |w.server.sessions| && (call in c.flights || !Mine(w, w.server.pending[call].token)))
    && (forall r :: r in c.requests && c.requests[r].Awaiting? ==> c.inFlight == Some(c.requests[r].call))
    && (forall call :: call in c.flights && c.flights[call].stage.Retiring? ==> NoneLive(w))
  }

  /** The user has no unrevoked session at all. */
  ghost predicate NoneLive(w: Web) {
    forall i: nat :: Mine(w, i) ==> !Live(w.server, i)
  }

  /** Signed in, nothing going on: the stored token opens the user's only unrevoked session. */
  ghost predicate SignedIn(w: Web) {
    var c := w.client;
    && OneLive(w) && w.user !in w.server.reuses
    && c.inFlight.None? && c.flights == map[] && c.requests == map[]
    && c.stored.Some? && Mine(w, c.stored.value) && Live(w.server, c.stored.value)
    && (forall call :: call in w.server.pending ==>
          w.server.pending[call].token < |w.server.sessions| && !Mine(w, w.server.pending[call].token))
  }

  /** What a foreign event leaves alone. */
  ghost predicate Untouched(w: Web, t: State) {
    SessionsUntouched(w, t) && PendingUntouched(w, t) && w.user !in t.reuses
  }

  ghost predicate SessionsUntouched(w: Web, t: State) {
    && |w.server.sessions| <= |t.sessions|
    && (forall i: nat :: i < |w.server.sessions| ==> t.sessions[i].user == w.server.sessions[i].user)
    && (forall i: nat :: Mine(w, i) ==> t.sessions[i] == w.server.sessions[i])
    && (forall i: nat :: |w.server.sessions| <= i < |t.sessions| ==> t.sessions[i].user != w.user)
  }

  ghost predicate PendingUntouched(w: Web, t: State) {
    && (forall call :: call in w.client.flights ==>
          (call in t.pending <==> call in w.server.pending) &&
          (call in t.pending ==> t.pending[call] == w.server.pending[call]))
    && (forall call :: call in t.pending && call !in w.client.flights ==>
          t.pending[call].token < |w.server.sessions| && !Mine(w, t.pending[call].token))
  }

  lemma ForeignSessions(w: Web, e: Event)
    requires Foreign(w, e)
    ensures SessionsUntouched(w, Next(w.server, e))
  {
  }

  lemma ForeignPending(w: Web, e: Event)
    requires WebInv(w) && Foreign(w, e)
    ensures PendingUntouched(w, Next(w.server, e))
  {
    forall call | call in w.client.flights ensures FlightOk(w, call, w.client.flights[call]) {}
  }

  lemma ForeignReuses(w: Web, e: Event)
    requires Foreign(w, e) && w.user !in w.server.reuses
    ensures w.user !in Next(w.server, e).reuses
  {
  }

  lemma ForeignIsUntouched(w: Web, e: Event)
    requires WebInv(w) && Foreign(w, e)
    ensures Untouched(w, Next(w.server, e))
  {
    ForeignSessions(w, e);
    ForeignPending(w, e);
    ForeignReuses(w, e);
  }

  lemma ElsewhereKeeps(w: Web, e: Event)
    requires WebInv(w) && Foreign(w, e)
    ensures WebInv(w.(server := Next(w.server, e)))
  {
    ForeignIsUntouched(w, e);
    UntouchedKeeps(w, Next(w.server, e));
  }

  lemma UntouchedKeeps(w: Web, t: State)
    requires WebInv(w) && Untouched(w, t)
    ensures WebInv(w.(server := t))
  {
    var v := w.(server := t);
    forall i: nat ensures (Mine(v, i) <==> Mine(w, i)) && (Mine(w, i) ==> (Live(t, i) <==> Live(w.server, i))) {}
    forall call | call in w.client.flights ensures FlightOk(v, call, w.client.flights[call]) {
      assert FlightOk(w, call, w.client.flights[call]);
    }
  }

  lemma ChecksKeeps(w: Web, call: nat, member: bool)
    requires WebInv(w) && call in w.client.flights && w.client.flights[call].stage.Posted?
    ensures WebInv(Step(w, ServerChecks(call, member)))
  {
    assert FlightOk(w, call, w.client.flights[call]);
    var v := Step(w, ServerChecks(call, member));
    assert v.server.sessions == w.server.sessions;
    forall i: nat ensures Mine(v, i) <==> Mine(w, i) {}
  }

  lemma RetiresKeeps(w: Web, call: nat)
    requires WebInv(w) && call in w.client.flights && w.client.flights[call].stage.Approved?
    ensures WebInv(Step(w, ServerRetires(call)))
  {
    assert FlightOk(w, call, w.client.flights[call]);
    var v, id := Step(w, ServerRetires(call)), w.client.flights[call].token;
    forall i: nat ensures (Mine(v, i) <==> Mine(w, i)) && (Live(v.server, i) ==> Live(w.server, i)) {}
    assert FlightOk(v, call, v.client.flights[call]);
  }

  lemma ReplacesKeeps(w: Web, call: nat, ttl: nat)
    requires WebInv(w) && call in w.client.flights && w.client.flights[call].stage.Retiring?
    ensures WebInv(Step(w, ServerReplaces(call, ttl)))
  {
    assert FlightOk(w, call, w.client.flights[call]);
    var v, n := Step(w, ServerReplaces(call, ttl)), |w.server.sessions|;
    forall i: nat ensures Mine(v, i) <==> Mine(w, i) || i == n {}
    forall i: nat | Mine(v, i) && Live(v.server, i) ensures i == n {
      if i < n { assert Mine(w, i) && Live(w.server, i); }
    }
    assert FlightOk(v, call, v.client.flights[call]);
  }

  /** After this move the client keeps a token that is revoked, or is about to be. */
  ghost predicate LosesToken(w: Web, m: Move) {
    match m
    case AnswerLost(call) =>
      call in w.client.flights && w.client.flights[call].stage.Answered? && w.client.flights[call].stage.renewed.Some?
    case ServerDies(call) => call in w.client.flights && w.client.flights[call].stage.Retiring?
    case _ => false
  }

  /** Losing an answer, or the server, keeps the invariant if and only if the stored token is still good. */
  lemma LosingExact(w: Web, m: Move)
    requires WebInv(w) && (m.AnswerLost? || m.ServerDies?)
    ensures WebInv(Step(w, m)) <==> !LosesToken(w, m)
  {
    var v := Step(w, m);
    if v != w {
      assert FlightOk(w, m.call, w.client.flights[m.call]);
      assert v.client.flights == map[] && v.client.inFlight.None? && v.client.stored == w.client.stored;
      assert v.server.sessions == w.server.sessions && v.server.reuses == w.server.reuses;
      assert forall i: nat :: Mine(v, i) <==> Mine(w, i);
    }
  }

  lemma StepKeeps(w: Web, m: Move)
    requires WebInv(w) && !LosesToken(w, m)
    ensures WebInv(Step(w, m)) && Step(w, m).user == w.user
  {
    match m {
      case ServerChecks(call, member) =>
        if call in w.client.flights && w.client.flights[call].stage.Posted? { ChecksKeeps(w, call, member); }
      case ServerRetires(call) =>
        if call in w.client.flights && w.client.flights[call].stage.Approved? { RetiresKeeps(w, call); }
      case ServerReplaces(call, ttl) =>
        if call in w.client.flights && w.client.flights[call].stage.Retiring? { ReplacesKeeps(w, call, ttl); }
      case Elsewhere(e) => if Foreign(w, e) { ElsewhereKeeps(w, e); }
      case AnswerLost(_) => LosingExact(w, m);
      case ServerDies(_) => LosingExact(w, m);
      case _ => ClientKeeps(w, m);
    }
  }

  /** No answer that carries a new token is lost along the run. */
  ghost predicate NoTokenLost(w: Web, moves: seq<Move>) {
    moves != [] ==>
      var before := moves[..|moves| - 1];
      NoTokenLost(w, before) && !LosesToken(Play(w, before), moves[|moves| - 1])
  }

  lemma ClientKeeps(w: Web, m: Move)
    requires WebInv(w) && (m.Issue? || m.Meets401? || m.Answer? || m.PostLost? || m.Receive?)
    ensures WebInv(Step(w, m))
  {
    if m.PostLost? || m.Receive? { LandingKeeps(w, m); } else { RequestKeeps(w, m); }
  }

  lemma RequestKeeps(w: Web, m: Move)
    requires WebInv(w) && (m.Issue? || m.Meets401? || m.Answer?)
    ensures WebInv(Step(w, m))
  {
    var v := Step(w, m);
    assert forall call :: call in w.client.flights ==> FlightOk(w, call, w.client.flights[call]);
    assert forall i: nat :: Mine(v, i) <==> Mine(w, i);
    assert forall call :: call in v.client.flights ==> FlightOk(v, call, v.client.flights[call]);
  }

  lemma LandingKeeps(w: Web, m: Move)
    requires WebInv(w) && (m.PostLost? || m.Receive?)
    ensures WebInv(Step(w, m))
  {
    var v := Step(w, m);
    if v != w {
      assert FlightOk(w, m.call, w.client.flights[m.call]);
      assert v.client.flights == map[] && v.client.inFlight.None? && v.server == w.server;
      assert forall i: nat :: Mine(v, i) <==> Mine(w, i);
    }
  }

  /**
   In every interleaving of requests, 401s, lost posts, lost refusals and other users' activity: at most one
   refresh is in flight, it presents the stored token, that token is unrevoked until the server
   exchanges it, every waiting request waits for that refresh, and the server never detects a reuse.
   */
  lemma {:induction false} SingleFlight(w: Web, moves: seq<Move>)
    requires SignedIn(w) && NoTokenLost(w, moves)
    ensures var v := Play(w, moves);
      && WebInv(v) && v.user == w.user && |v.client.flights| <= 1 && w.user !in v.server.reuses
      && forall call :: call in v.client.flights ==>
           v.client.stored == Some(v.client.flights[call].token) &&
           (Live(v.server, v.client.flights[call].token) ||
            v.client.flights[call].stage.Retiring? || v.client.flights[call].stage.Answered?)
  {
    if moves != [] {
      SingleFlight(w, moves[..|moves| - 1]);
      StepKeeps(Play(w, moves[..|moves| - 1]), moves[|moves| - 1]);
    }
    var v := Play(w, moves);
    forall call | call in v.client.flights ensures FlightOk(v, call, v.client.flights[call]) {}
    assert |v.client.flights| == |v.client.flights.Keys|;
  }

  /** A refresh whose answer is lost. */
  ghost function LostRefresh(ttl: nat): seq<Move> {
    [Issue(0), Meets401(0, 0), ServerChecks(0, true)] + [ServerRetires(0), ServerReplaces(0, ttl), AnswerLost(0)]
  }

  /** And the 401 of a later request. */
  ghost function Replay(ttl: nat): seq<Move> {
    LostRefresh(ttl) + [Issue(1), Meets401(1, 0), ServerChecks(0, true)]
  }

  lemma {:induction false} PlayAppend(w: Web, ms: seq<Move>, ns: seq<Move>)
    ensures Play(w, ms + ns) == Play(Play(w, ms), ns)
    decreases |ns|
  {
    if ns == [] {
      assert ms + ns == ms;
    } else {
      assert (ms + ns)[..|ms + ns| - 1] == ms + ns[..|ns| - 1];
      PlayAppend(w, ms, ns[..|ns| - 1]);
    }
  }

  /** The client after a 401 met by a new request, with no refresh running. */
  lemma StartsRefresh(w: Web, r: nat, id: nat)
    requires w.client.stored == Some(id) && w.client.inFlight.None? && w.client.flights == map[]
    requires r !in w.client.requests && 0 !in w.server.pending
    ensures Step(Step(w, Issue(r)), Meets401(r, 0))
         == Web(Client(Some(id), Some(0), map[0 := Flight(id, Posted)], w.client.requests[r := Awaiting(0)]), w.server, w.user)
  {
  }

  lemma ApprovesRefresh(w: Web, id: nat)
    requires w.client == Client(Some(id), Some(0), map[0 := Flight(id, Posted)], map[0 := Awaiting(0)])
    requires Live(w.server, id) && 0 !in w.server.pending && w.server.clock <= w.server.sessions[id].expiresAt
    ensures Step(w, ServerChecks(0, true))
         == Web(w.client.(flights := map[0 := Flight(id, Approved)]),
                w.server.(pending := w.server.pending[0 := Exchange(id, false)]), w.user)
  {
  }

  lemma RotatesThenLost(w: Web, id: nat, ttl: nat)
    requires w.client == Client(Some(id), Some(0), map[0 := Flight(id, Approved)], map[0 := Awaiting(0)])
    requires Mine(w, id) && 0 in w.server.pending && w.server.pending[0] == Exchange(id, false)
    ensures var v := Step(Step(Step(w, ServerRetires(0)), ServerReplaces(0, ttl)), AnswerLost(0));
      && v.client == Client(Some(id), None, map[], map[0 := Settled]) && v.user == w.user
      && Mine(v, id) && !Live(v.server, id) && 0 !in v.server.pending
  {
    var retired := Step(w, ServerRetires(0));
    assert retired.client == w.client.(flights := map[0 := Flight(id, Retiring)]) && At(retired.server, 0, true);
    assert !Live(retired.server, id) && Mine(retired, id) && retired.server.pending[0].token == id;
    var replaced := Step(retired, ServerReplaces(0, ttl));
    assert replaced.client == w.client.(flights := map[0 := Flight(id, Answered(Some(|w.server.sessions|)))]);
    assert Mine(replaced, id) && !Live(replaced.server, id) && 0 !in replaced.server.pending;
  }

  /** After a lost answer the client still stores the token that was rotated. */
  lemma AnswerLostKeepsToken(w: Web, ttl: nat)
    requires SignedIn(w) && 0 !in w.server.pending && w.server.clock <= w.server.sessions[w.client.stored.value].expiresAt
    ensures var v := Play(w, LostRefresh(ttl));
      && v.client == Client(w.client.stored, None, map[], map[0 := Settled]) && v.user == w.user
      && Mine(v, v.client.stored.value) && !Live(v.server, v.client.stored.value) && 0 !in v.server.pending
  {
    var id := w.client.stored.value;
    PlayAppend(w, [Issue(0), Meets401(0, 0), ServerChecks(0, true)], [ServerRetires(0), ServerReplaces(0, ttl), AnswerLost(0)]);
    PlayThree(w, Issue(0), Meets401(0, 0), ServerChecks(0, true));
    StartsRefresh(w, 0, id);
    var started := Step(Step(w, Issue(0)), Meets401(0, 0));
    assert started.client.requests == map[0 := Awaiting(0)];
    ApprovesRefresh(started, id);
    var approved := Step(started, ServerChecks(0, true));
    PlayThree(approved, ServerRetires(0), ServerReplaces(0, ttl), AnswerLost(0));
    RotatesThenLost(approved, id, ttl);
  }

  lemma StaleTokenIsReuse(w: Web, i: nat)
    requires w.client == Client(w.client.stored, None, map[], map[0 := Settled]) && w.client.stored.Some?
    requires Mine(w, w.client.stored.value) && !Live(w.server, w.client.stored.value) && 0 !in w.server.pending
    ensures var v := Play(w, [Issue(1), Meets401(1, 0), ServerChecks(0, true)]);
      w.user in v.server.reuses && !(Mine(v, i) && Live(v.server, i)) && v.user == w.user
  {
    var id := w.client.stored.value;
    PlayThree(w, Issue(1), Meets401(1, 0), ServerChecks(0, true));
    StartsRefresh(w, 1, id);
    var v := Step(Step(Step(w, Issue(1)), Meets401(1, 0)), ServerChecks(0, true));
    assert v.server.reuses[|w.server.reuses|] == w.user;
    if i < |w.server.sessions| && w.server.sessions[i].user == w.user {
      SessionProofs.ReuseRevokesAll(w.server, 0, id, true, i);
    }
  }

  /** Losing an answer leaves the client with a rotated token: its next refresh signs the user out everywhere. */
  lemma LostAnswerIsReuse(w: Web, ttl: nat, i: nat)
    requires SignedIn(w) && 0 !in w.server.pending && w.server.clock <= w.server.sessions[w.client.stored.value].expiresAt
    ensures var v := Play(w, Replay(ttl));
      w.user in v.server.reuses && !(Mine(v, i) && Live(v.server, i))
  {
    var first := LostRefresh(ttl);
    PlayAppend(w, first, [Issue(1), Meets401(1, 0), ServerChecks(0, true)]);
    AnswerLostKeepsToken(w, ttl);
    StaleTokenIsReuse(Play(w, first), i);
  }

  lemma PlayThree(w: Web, a: Move, b: Move, c: Move)
    ensures Play(w, [a, b, c]) == Step(Step(Step(w, a), b), c)
  {
    assert [a, b, c][..2] == [a, b] && [a, b][..1] == [a] && [a][..0] == [];
    assert Play(w, [a]) == Step(w, a);
    assert Play(w, [a, b]) == Step(Play(w, [a]), b);
  }

  // ----- the requests that waited -----

  /** What becomes of a request when the refresh it may have waited for is over. */
  ghost predicate GoesOn(was: Phase, now: Phase, ok: bool) {
    now == match was case Awaiting(_) => (if ok then Resent else Settled) case _ => was
  }

  /**
   In every run without a lost token: once the answer to a refresh is in, its new token is stored
   and every request that waited is sent again; if it was refused, the token is dropped and each of
   them fails; nobody waits any more.
   */
  lemma RefreshReleases(w: Web, moves: seq<Move>, call: nat)
    requires SignedIn(w) && NoTokenLost(w, moves)
    requires call in Play(w, moves).client.flights && Play(w, moves).client.flights[call].stage.Answered?
    ensures var c, t := Play(w, moves).client, Step(Play(w, moves), Receive(call)).client;
      var renewed := c.flights[call].stage.renewed;
      && t.stored == renewed && t.inFlight == None && t.requests.Keys == c.requests.Keys
      && forall r :: r in c.requests ==> GoesOn(c.requests[r], t.requests[r], renewed.Some?) && !t.requests[r].Awaiting?
  {
    SingleFlight(w, moves);
  }

  /**
   In every run without a lost token, a request that meets a 401 fails if no token is stored;
   otherwise it waits for the refresh in flight, or for a new one that presents the stored token.
   */
  lemma UnauthorizedExact(w: Web, moves: seq<Move>, r: nat, call: nat)
    requires SignedIn(w) && NoTokenLost(w, moves)
    requires var v := Play(w, moves);
      r in v.client.requests && v.client.requests[r] == Sent && call !in v.client.flights && call !in v.server.pending
    ensures var v, c := Play(w, moves), Step(Play(w, moves), Meets401(r, call)).client;
      && (v.client.stored == None ==> c == v.client.(requests := v.client.requests[r := Settled]))
      && (v.client.stored.Some? ==>
            && c.inFlight.Some? && c.requests == v.client.requests[r := Awaiting(c.inFlight.value)]
            && c.stored == v.client.stored && c.inFlight.value in c.flights
            && c.flights[c.inFlight.value].token == v.client.stored.value
            && (if v.client.flights == map[] then c.flights[call].stage == Posted else c.flights == v.client.flights))
  {
    SingleFlight(w, moves);
    var v := Play(w, moves);
    forall f | f in v.client.flights ensures FlightOk(v, f, v.client.flights[f]) {}
  }

  /** A refresh that never reached the server leaves the token, and fails everyone who waited. */
  lemma LostPostReleases(w: Web, moves: seq<Move>, call: nat)
    requires SignedIn(w) && NoTokenLost(w, moves)
    requires call in Play(w, moves).client.flights && Play(w, moves).client.flights[call].stage.Posted?
    ensures var c, t := Play(w, moves).client, Step(Play(w, moves), PostLost(call)).client;
      && t.stored == c.stored && t.inFlight == None && t.requests.Keys == c.requests.Keys
      && forall r :: r in c.requests ==> GoesOn(c.requests[r], t.requests[r], false) && !t.requests[r].Awaiting?
  {
    SingleFlight(w, moves);
  }

  ghost function Rank(phase: Phase): nat {
    match phase case Sent => 0 case Awaiting(_) => 1 case Resent => 2 case Settled => 3
  }

  /** Over every run a request only goes forward: it is sent twice at most, and settled once. */
  lemma {:induction false} RequestsGoForward(w: Web, moves: seq<Move>, r: nat)
    requires r in w.client.requests
    ensures var v := Play(w, moves);
      r in v.client.requests && Rank(w.client.requests[r]) <= Rank(v.client.requests[r])
  {
    if moves != [] { RequestsGoForward(w, moves[..|moves| - 1], r); }
  }
}
