/**
 Refresh-token sessions and their rotation (the idea of section 10.4 of RFC 6749).

 Refresh tokens are fresh and hashed injectively, so a token is identified with the index of
 the session row it opens. A refresh is three steps, as in the source: the row is read and
 judged, later revoked, and later replaced by a successor; other requests can run in between,
 and the process can die.
 */
module Sessions {
  import opened Options

  datatype Session = Session(user: nat, revokedAt: Option<int>, rotatedFrom: Option<nat>, expiresAt: int)

  /** A refresh call that passed its checks; `retired` once it has revoked the session presented. */
  datatype Exchange = Exchange(token: nat, retired: bool)

  /** `pending` holds the exchanges not finished; `reuses` the users whose replay was detected. */
  datatype State = State(sessions: seq<Session>, clock: int, pending: map<nat, Exchange>, reuses: seq<nat>)

  datatype Event =
    | Login(user: nat, ttl: nat)
    | Check(call: nat, token: nat, member: bool)
    | Retire(call: nat)
    | Replace(call: nat, ttl: nat)
    | Die(call: nat)
    | Logout(token: nat)
    | RevokeAll(user: nat)
    | Tick(ms: nat)

  function Initial(): State {
    State([], 0, map[], [])
  }

  predicate Live(s: State, id: nat) {
    id < |s.sessions| && s.sessions[id].revokedAt.None?
  }

  function Revoke(s: State, id: nat): State
    requires id < |s.sessions|
  {
    s.(sessions := s.sessions[id := s.sessions[id].(revokedAt := Some(s.clock))])
  }

  function RevokeUser(s: State, user: nat): State {
    s.(sessions := seq(|s.sessions|, i requires 0 <= i < |s.sessions| =>
         if s.sessions[i].user == user && s.sessions[i].revokedAt.None? then s.sessions[i].(revokedAt := Some(s.clock))
         else s.sessions[i]))
  }

  function Issue(s: State, user: nat, ttl: nat, rotatedFrom: Option<nat>): State {
    s.(sessions := s.sessions + [Session(user, None, rotatedFrom, s.clock + ttl)])
  }

  /** Reading and judging the presented token; `member` says whether the membership still exists. */
  function Checked(s: State, call: nat, token: nat, member: bool): State {
    if token >= |s.sessions| then s
    else if s.sessions[token].revokedAt.Some? then
      RevokeUser(s, s.sessions[token].user).(reuses := s.reuses + [s.sessions[token].user])
    else if s.sessions[token].expiresAt < s.clock || !member then s
    else s.(pending := s.pending[call := Exchange(token, false)])
  }

  /** The call has an exchange at the given step, for a session that exists. */
  predicate At(s: State, call: nat, retired: bool) {
    call in s.pending && s.pending[call].retired == retired && s.pending[call].token < |s.sessions|
  }

  function Retired(s: State, call: nat): State
    requires At(s, call, false)
  {
    Revoke(s, s.pending[call].token).(pending := s.pending[call := Exchange(s.pending[call].token, true)])
  }

  function Replaced(s: State, call: nat, ttl: nat): State
    requires At(s, call, true)
  {
    var id := s.pending[call].token;
    Issue(s, s.sessions[id].user, ttl, Some(id)).(pending := s.pending - {call})
  }

  function Next(s: State, e: Event): State {
    match e
    case Login(user, ttl) => Issue(s, user, ttl, None)
    case Check(call, token, member) => if call in s.pending then s else Checked(s, call, token, member)
    case Retire(call) => if At(s, call, false) then Retired(s, call) else s
    case Replace(call, ttl) => if At(s, call, true) then Replaced(s, call, ttl) else s
    case Die(call) => s.(pending := s.pending - {call})
    case Logout(token) => if token < |s.sessions| then Revoke(s, token) else s
    case RevokeAll(user) => RevokeUser(s, user)
    case Tick(ms) => s.(clock := s.clock + ms)
  }

  ghost function Run(s: State, events: seq<Event>): State {
    if events == [] then s else Next(Run(s, events[..|events| - 1]), events[|events| - 1])
  }

  class AuthService {
    var sessions: seq<Session>
    var clock: int
    var pending: map<nat, Exchange>
    var reuses: seq<nat>

    ghost function View(): State
      reads this
    {
      State(sessions, clock, pending, reuses)
    }

    constructor ()
      ensures View() == Initial()
    {
      sessions, clock, pending, reuses := [], 0, map[], [];
    }

    method IssueSession(user: nat, ttl: nat, rotatedFrom: Option<nat>) returns (token: nat)
      modifies this`sessions
      ensures View() == Issue(old(View()), user, ttl, rotatedFrom) && token == |old(sessions)|
    {
      token := |sessions|;
      sessions := sessions + [Session(user, None, rotatedFrom, clock + ttl)];
    }

    method RevokeAllSessions(user: nat)
      modifies this`sessions
      ensures View() == Next(old(View()), RevokeAll(user))
    {
      ghost var revoked := RevokeUser(View(), user).sessions;
      for i := 0 to |sessions|
        invariant |sessions| == |old(sessions)|
        invariant forall j :: 0 <= j < i ==> sessions[j] == revoked[j]
        invariant forall j :: i <= j < |sessions| ==> sessions[j] == old(sessions)[j]
      {
        if sessions[i].user == user && sessions[i].revokedAt.None? {
          sessions := sessions[i := sessions[i].(revokedAt := Some(clock))];
        }
      }
    }

    /** The part of `refresh` up to the membership check; `ok` if the token may be rotated. */
    method CheckRefresh(call: nat, token: nat, member: bool) returns (ok: bool)
      requires call !in pending
      modifies this
      ensures View() == Next(old(View()), Check(call, token, member))
      ensures ok <==> call in pending
    {
      if token >= |sessions| { return false; }
      var session := sessions[token];
      if session.revokedAt.Some? {
        RevokeAllSessions(session.user);
        reuses := reuses + [session.user];
        return false;
      }
      if session.expiresAt < clock { return false; }
      if !member { return false; }
      pending := pending[call := Exchange(token, false)];
      ok := true;
    }

    /** The first write of `refresh`. */
    method RetireSession(call: nat)
      requires At(View(), call, false)
      modifies this
      ensures View() == Next(old(View()), Retire(call))
    {
      var id := pending[call].token;
      sessions := sessions[id := sessions[id].(revokedAt := Some(clock))];
      pending := pending[call := Exchange(id, true)];
    }

    /** The second write, in `issueSession`. */
    method ReplaceSession(call: nat, ttl: nat) returns (token: nat)
      requires At(View(), call, true)
      modifies this
      ensures View() == Next(old(View()), Replace(call, ttl)) && token == |old(sessions)|
    {
      var id := pending[call].token;
      var user := sessions[id].user;
      pending := pending - {call};
      token := IssueSession(user, ttl, Some(id));
    }

    method LogoutSession(token: nat)
      modifies this`sessions
      ensures View() == Next(old(View()), Logout(token))
    {
      if token >= |sessions| { return; }
      sessions := sessions[token := sessions[token].(revokedAt := Some(clock))];
    }
  }
}

/**
 What every run of the session machine keeps.

 `RunKeepsParents`: in every run predecessors are older, revoked and of the same user.
 `LinearExact`: rotation forms chains if and only if no successor is issued for a session that
 already has one; `OneLivePerChain` says what that means for live sessions.
 */
module SessionProofs {
  import opened Options
  import opened Sessions

  ghost predicate ChildOf(ss: seq<Session>, child: nat, parent: nat) {
    child < |ss| && ss[child].rotatedFrom == Some(parent)
  }

  /** Predecessors are older, revoked and of the same user, and so will those of exchanges under way be. */
  ghost predicate Parents(s: State) {
    && (forall i: nat, p: nat :: ChildOf(s.sessions, i, p) ==>
          p < i && s.sessions[p].revokedAt.Some? && s.sessions[p].user == s.sessions[i].user)
    && (forall c :: c in s.pending ==>
          s.pending[c].token < |s.sessions| && (s.pending[c].retired ==> s.sessions[s.pending[c].token].revokedAt.Some?))
  }

  /** No session has two successors. */
  ghost predicate Linear(s: State) {
    forall i: nat, j: nat, p: nat :: ChildOf(s.sessions, i, p) && ChildOf(s.sessions, j, p) ==> i == j
  }

  ghost predicate Chains(s: State) {
    Parents(s) && Linear(s)
  }

  lemma RevokeUserKeeps(s: State, user: nat)
    ensures forall i: nat, p: nat :: ChildOf(RevokeUser(s, user).sessions, i, p) <==> ChildOf(s.sessions, i, p)
    ensures forall i: nat :: Live(RevokeUser(s, user), i) <==> Live(s, i) && s.sessions[i].user != user
    ensures Parents(s) ==> Parents(RevokeUser(s, user))
  {
    var t := RevokeUser(s, user);
    forall i: nat, p: nat ensures ChildOf(t.sessions, i, p) <==> ChildOf(s.sessions, i, p) {}
  }

  lemma RevokeKeeps(s: State, id: nat)
    requires id < |s.sessions|
    ensures forall i: nat, p: nat :: ChildOf(Revoke(s, id).sessions, i, p) <==> ChildOf(s.sessions, i, p)
    ensures Parents(s) ==> Parents(Revoke(s, id))
  {
    forall i: nat, p: nat ensures ChildOf(Revoke(s, id).sessions, i, p) <==> ChildOf(s.sessions, i, p) {}
  }

  lemma IssueKeeps(s: State, user: nat, ttl: nat, rotatedFrom: Option<nat>)
    requires Parents(s)
    requires rotatedFrom.Some? ==>
      var p := rotatedFrom.value;
      p < |s.sessions| && s.sessions[p].revokedAt.Some? && s.sessions[p].user == user
    ensures Parents(Issue(s, user, ttl, rotatedFrom))
    ensures forall i: nat, p: nat :: ChildOf(Issue(s, user, ttl, rotatedFrom).sessions, i, p) <==>
      ChildOf(s.sessions, i, p) || (i == |s.sessions| && rotatedFrom == Some(p))
  {
    var t := Issue(s, user, ttl, rotatedFrom);
    forall i: nat, p: nat ensures ChildOf(t.sessions, i, p) <==> ChildOf(s.sessions, i, p) || (i == |s.sessions| && rotatedFrom == Some(p)) {}
  }

  lemma RetireKeeps(s: State, call: nat)
    requires Parents(s) && At(s, call, false)
    ensures Parents(Retired(s, call))
  {
    RevokeKeeps(s, s.pending[call].token);
  }

  lemma ReplaceKeeps(s: State, call: nat, ttl: nat)
    requires Parents(s) && At(s, call, true)
    ensures Parents(Replaced(s, call, ttl))
  {
    var id := s.pending[call].token;
    IssueKeeps(s, s.sessions[id].user, ttl, Some(id));
  }

  lemma StepKeepsParents(s: State, e: Event)
    requires Parents(s)
    ensures Parents(Next(s, e))
  {
    match e {
      case Login(user, ttl) => IssueKeeps(s, user, ttl, None);
      case Check(call, token, _) =>
        if token < |s.sessions| { RevokeUserKeeps(s, s.sessions[token].user); }
      case Retire(call) => if At(s, call, false) { RetireKeeps(s, call); }
      case Replace(call, ttl) => if At(s, call, true) { ReplaceKeeps(s, call, ttl); }
      case Die(_) =>
      case Logout(token) => if token < |s.sessions| { RevokeKeeps(s, token); }
      case RevokeAll(user) => RevokeUserKeeps(s, user);
      case Tick(_) =>
    }
  }

  /** In every run, however exchanges overlap. */
  lemma {:induction false} RunKeepsParents(events: seq<Event>)
    ensures Parents(Run(Initial(), events))
  {
    if events != [] {
      RunKeepsParents(events[..|events| - 1]);
      StepKeepsParents(Run(Initial(), events[..|events| - 1]), events[|events| - 1]);
    }
  }

  // ----- when rotation forms chains -----

  /** A successor is issued only for a session that has none. */
  ghost predicate Lands(s: State, e: Event) {
    e.Replace? && At(s, e.call, true) ==> forall i: nat :: !ChildOf(s.sessions, i, s.pending[e.call].token)
  }

  /** The last step of a refresh keeps the chains linear exactly when the session was not exchanged since the first. */
  lemma RotationExact(s: State, call: nat, ttl: nat)
    requires Linear(s) && At(s, call, true)
    ensures Linear(Next(s, Replace(call, ttl))) <==> forall i: nat :: !ChildOf(s.sessions, i, s.pending[call].token)
  {
    var id, n, t := s.pending[call].token, |s.sessions|, Next(s, Replace(call, ttl));
    forall i: nat, p: nat ensures ChildOf(t.sessions, i, p) <==> ChildOf(s.sessions, i, p) || (i == n && p == id) {}
    assert ChildOf(t.sessions, n, id);
  }

  /** Successors stay, and no other step makes one. */
  lemma StepChildren(s: State, e: Event)
    ensures forall i: nat, p: nat :: ChildOf(s.sessions, i, p) ==> ChildOf(Next(s, e).sessions, i, p)
    ensures !e.Replace? ==> forall i: nat, p: nat :: ChildOf(Next(s, e).sessions, i, p) ==> ChildOf(s.sessions, i, p)
  {
    var t := Next(s, e);
    assert forall i: nat :: i < |s.sessions| ==> i < |t.sessions| && t.sessions[i].rotatedFrom == s.sessions[i].rotatedFrom;
    assert !e.Replace? ==> forall i: nat :: |s.sessions| <= i < |t.sessions| ==> t.sessions[i].rotatedFrom.None?;
  }

  lemma StepLinear(s: State, e: Event)
    ensures Linear(Next(s, e)) <==> Linear(s) && Lands(s, e)
  {
    StepChildren(s, e);
    if Linear(s) && e.Replace? && At(s, e.call, true) { RotationExact(s, e.call, e.ttl); }
  }

  ghost predicate AllLand(events: seq<Event>) {
    events == [] ||
    var before := events[..|events| - 1];
    AllLand(before) && Lands(Run(Initial(), before), events[|events| - 1])
  }

  /** Over every run: no session has two successors if and only if each successor was issued for a session without one. */
  lemma {:induction false} LinearExact(events: seq<Event>)
    ensures Linear(Run(Initial(), events)) <==> AllLand(events)
  {
    if events != [] {
      var before := events[..|events| - 1];
      LinearExact(before);
      StepLinear(Run(Initial(), before), events[|events| - 1]);
    }
  }

  /** In those runs the sessions form chains. */
  lemma RunKeepsChains(events: seq<Event>)
    requires AllLand(events)
    ensures Chains(Run(Initial(), events))
  {
    RunKeepsParents(events);
    LinearExact(events);
  }

  // ----- chains -----

  /** The session a chain of rotations started from. */
  ghost function Root(s: State, i: nat): nat
    requires Parents(s) && i < |s.sessions|
    decreases i
  {
    match s.sessions[i].rotatedFrom
    case None => i
    case Some(p) => assert ChildOf(s.sessions, i, p); Root(s, p)
  }

  ghost predicate Ancestor(s: State, a: nat, i: nat)
    requires Parents(s) && i < |s.sessions|
    decreases i
  {
    match s.sessions[i].rotatedFrom
    case None => false
    case Some(p) => assert ChildOf(s.sessions, i, p); a == p || Ancestor(s, a, p)
  }

  lemma {:induction false} RootIsOlder(s: State, i: nat)
    requires Parents(s) && i < |s.sessions|
    ensures Root(s, i) <= i
    decreases i
  {
    if s.sessions[i].rotatedFrom.Some? {
      assert ChildOf(s.sessions, i, s.sessions[i].rotatedFrom.value);
      RootIsOlder(s, s.sessions[i].rotatedFrom.value);
    }
  }

  /** A chain leaves an ancestor through one of its children, no later than where it arrives. */
  lemma {:induction false} ChildOnPath(s: State, a: nat, i: nat) returns (child: nat)
    requires Parents(s) && i < |s.sessions| && Ancestor(s, a, i)
    ensures child <= i && ChildOf(s.sessions, child, a)
    decreases i
  {
    var p := s.sessions[i].rotatedFrom.value;
    assert ChildOf(s.sessions, i, p);
    if a == p {
      child := i;
    } else {
      child := ChildOnPath(s, a, p);
    }
  }

  /** Sessions with a common root lie on one line: of two of them, one is an ancestor of the other. */
  lemma {:induction false} SameRootIsLinear(s: State, i: nat, j: nat)
    requires Chains(s) && i < j < |s.sessions| && Root(s, i) == Root(s, j)
    ensures Ancestor(s, i, j)
    decreases j
  {
    RootIsOlder(s, i);
    assert s.sessions[j].rotatedFrom.Some?;
    var p := s.sessions[j].rotatedFrom.value;
    assert ChildOf(s.sessions, j, p);
    if p < i {
      SameRootIsLinear(s, p, i);
      var child := ChildOnPath(s, p, i);
      assert false;
    } else if i < p {
      SameRootIsLinear(s, i, p);
    }
  }

  /** Of the sessions descending from one login at most one, the last, is unrevoked. */
  lemma OneLivePerChain(events: seq<Event>, i: nat, j: nat)
    requires AllLand(events)
    requires Live(Run(Initial(), events), i) && i < |Run(Initial(), events).sessions|
    requires j < |Run(Initial(), events).sessions|
    ensures Chains(Run(Initial(), events))
    ensures Root(Run(Initial(), events), i) == Root(Run(Initial(), events), j) ==>
      j <= i && (Live(Run(Initial(), events), j) ==> i == j)
  {
    var s := Run(Initial(), events);
    RunKeepsChains(events);
    if Root(s, i) == Root(s, j) {
      if i < j {
        SameRootIsLinear(s, i, j);
        var child := ChildOnPath(s, i, j);
        assert false;
      } else if j < i {
        SameRootIsLinear(s, j, i);
        var child := ChildOnPath(s, j, i);
      }
    }
  }

  /** Revocation is permanent, and a session keeps its user and its origin. */
  lemma {:induction false} RevocationIsPermanent(s: State, events: seq<Event>, i: nat)
    requires i < |s.sessions|
    ensures var t := Run(s, events);
      && i < |t.sessions| && t.sessions[i].user == s.sessions[i].user
      && t.sessions[i].rotatedFrom == s.sessions[i].rotatedFrom
      && (!Live(s, i) ==> !Live(t, i))
  {
    if events != [] { RevocationIsPermanent(s, events[..|events| - 1], i); }
  }

  /** An exchange is approved exactly for a token that exists, is not revoked, is not older than its session, and whose member still is one. */
  lemma CheckExact(s: State, call: nat, token: nat, member: bool)
    requires call !in s.pending
    ensures call in Next(s, Check(call, token, member)).pending <==>
      && member && token < |s.sessions|
      && s.sessions[token].revokedAt.None? && s.clock <= s.sessions[token].expiresAt
    ensures call in Next(s, Check(call, token, member)).pending ==>
      Next(s, Check(call, token, member)).pending[call] == Exchange(token, false)
  {
  }

  /** The time that passes during a run. */
  ghost function Passed(events: seq<Event>): nat {
    if events == [] then 0
    else Passed(events[..|events| - 1]) + (if events[|events| - 1].Tick? then events[|events| - 1].ms else 0)
  }

  lemma {:induction false} ExpiryStays(s: State, events: seq<Event>, i: nat)
    requires i < |s.sessions|
    ensures var t := Run(s, events);
      t.clock == s.clock + Passed(events) && i < |t.sessions| && t.sessions[i].expiresAt == s.sessions[i].expiresAt
  {
    if events != [] { ExpiryStays(s, events[..|events| - 1], i); }
  }

  /**
   A token issued by a login or a rotation, whatever happens afterwards: it can be exchanged if and
   only if its session has not been revoked, no more than its time to live has passed, and the
   membership still exists.
   */
  lemma TokenLasts(s: State, issue: Event, events: seq<Event>, call: nat, member: bool)
    requires (issue.Login? || issue.Replace?) && |Next(s, issue).sessions| > |s.sessions|
    requires call !in Run(Next(s, issue), events).pending
    ensures var t := Run(Next(s, issue), events);
      call in Next(t, Check(call, |s.sessions|, member)).pending <==>
        Live(t, |s.sessions|) && Passed(events) <= issue.ttl && member
  {
    ExpiryStays(Next(s, issue), events, |s.sessions|);
    CheckExact(Run(Next(s, issue), events), call, |s.sessions|, member);
  }

  /** Logging out ends exactly the session presented. */
  lemma LogoutExact(s: State, token: nat)
    ensures var t := Next(s, Logout(token));
      && |t.sessions| == |s.sessions| && t.pending == s.pending
      && (forall i: nat :: Live(t, i) <==> Live(s, i) && i != token)
      && (token < |s.sessions| ==> t.sessions[token].revokedAt == Some(s.clock))
  {
  }

  /** Revoking all sessions of a user ends exactly those, from now on; the ones revoked before keep their time. */
  lemma RevokeAllExact(s: State, user: nat)
    ensures var t := Next(s, RevokeAll(user));
      && |t.sessions| == |s.sessions| && t.pending == s.pending && t.clock == s.clock
      && forall i: nat :: i < |s.sessions| ==>
           t.sessions[i] == if Live(s, i) && s.sessions[i].user == user then s.sessions[i].(revokedAt := Some(s.clock)) else s.sessions[i]
  {
  }

  /** The first write of a refresh ends the session presented; the second issues its successor to the same user. */
  lemma RotateExact(s: State, call: nat, ttl: nat)
    requires call in s.pending && s.pending[call].token < |s.sessions| && !s.pending[call].retired
    ensures var id, n, r := s.pending[call].token, |s.sessions|, Next(s, Retire(call));
      var t := Next(r, Replace(call, ttl));
      && r.sessions == s.sessions[id := s.sessions[id].(revokedAt := Some(s.clock))]
      && t.sessions == r.sessions + [Session(s.sessions[id].user, None, Some(id), s.clock + ttl)] && call !in t.pending
  {
    var r := Next(s, Retire(call));
    assert At(r, call, true);
  }

  /** Presenting a revoked token leaves its user without an unrevoked session, in any state. */
  lemma ReuseRevokesAll(s: State, call: nat, token: nat, member: bool, i: nat)
    requires token < |s.sessions| && !Live(s, token) && call !in s.pending
    requires i < |s.sessions| && s.sessions[i].user == s.sessions[token].user
    ensures !Live(Next(s, Check(call, token, member)), i)
    ensures |Next(s, Check(call, token, member)).sessions| == |s.sessions|
    ensures Next(s, Check(call, token, member)).pending == s.pending
  {
    RevokeUserKeeps(s, s.sessions[token].user);
  }

  ghost predicate NoneLive(s: State, user: nat) {
    forall i: nat :: Live(s, i) ==> s.sessions[i].user != user
  }

  /** No exchange of the user has been approved and not finished. */
  ghost predicate NoneApproved(s: State, user: nat) {
    forall c :: c in s.pending ==> s.pending[c].token < |s.sessions| && s.sessions[s.pending[c].token].user != user
  }

  ghost predicate NoLogin(events: seq<Event>, user: nat) {
    forall k :: 0 <= k < |events| ==> !(events[k].Login? && events[k].user == user)
  }

  lemma SignedOutStep(s: State, e: Event, user: nat)
    requires NoneLive(s, user) && NoneApproved(s, user) && !(e.Login? && e.user == user)
    ensures NoneLive(Next(s, e), user) && NoneApproved(Next(s, e), user)
  {
    var t := Next(s, e);
    assert forall i: nat :: i < |s.sessions| ==> i < |t.sessions| && t.sessions[i].user == s.sessions[i].user;
    assert forall i: nat :: i < |s.sessions| && Live(t, i) ==> Live(s, i);
  }

  lemma {:induction false} SignedOutRun(s: State, events: seq<Event>, user: nat)
    requires NoneLive(s, user) && NoneApproved(s, user) && NoLogin(events, user)
    ensures NoneLive(Run(s, events), user) && NoneApproved(Run(s, events), user)
  {
    if events != [] {
      SignedOutRun(s, events[..|events| - 1], user);
      SignedOutStep(Run(s, events[..|events| - 1]), events[|events| - 1], user);
    }
  }

  ghost predicate StaysSignedOut(s: State, user: nat) {
    forall events :: NoLogin(events, user) ==> NoneLive(Run(s, events), user)
  }

  lemma Finishes(s: State, c: nat)
    requires c in s.pending && s.pending[c].token < |s.sessions|
    ensures var t := Next(Next(s, Retire(c)), Replace(c, 0));
      Live(t, |s.sessions|) && t.sessions[|s.sessions|].user == s.sessions[s.pending[c].token].user
  {
    var r := Next(s, Retire(c));
    assert At(r, c, true) && r.pending[c].token == s.pending[c].token && |r.sessions| == |s.sessions|;
    assert r.sessions[s.pending[c].token].user == s.sessions[s.pending[c].token].user;
  }

  /** An exchange that was approved can be finished. */
  lemma ExchangeEscapes(s: State, c: nat, user: nat)
    requires c in s.pending && s.pending[c].token < |s.sessions| && s.sessions[s.pending[c].token].user == user
    ensures !StaysSignedOut(s, user)
  {
    var events := [Retire(c), Replace(c, 0)];
    assert events[..1] == [Retire(c)] && [Retire(c)][..0] == [];
    assert Run(s, [Retire(c)]) == Next(s, Retire(c));
    Finishes(s, c);
    assert NoLogin(events, user) && !NoneLive(Run(s, events), user);
  }

  /**
   Revoking all sessions of a user keeps the user signed out until the next login, whatever else
   happens, if and only if no exchange of the user was between its steps at that moment.
   */
  lemma RevocationLasts(s: State, user: nat)
    requires forall c :: c in s.pending ==> s.pending[c].token < |s.sessions|
    ensures StaysSignedOut(RevokeUser(s, user), user) <==> NoneApproved(s, user)
  {
    var t := RevokeUser(s, user);
    RevokeUserKeeps(s, user);
    if NoneApproved(s, user) {
      forall events | NoLogin(events, user) ensures NoneLive(Run(t, events), user) { SignedOutRun(t, events, user); }
    } else {
      var c :| c in s.pending && s.sessions[s.pending[c].token].user == user;
      ExchangeEscapes(t, c, user);
    }
  }

  lemma RunSix(s: State, a: Event, b: Event, c: Event, d: Event, e: Event, f: Event)
    ensures Run(s, [a, b, c, d, e, f]) == Next(Next(Next(Next(Next(Next(s, a), b), c), d), e), f)
  {
    assert [a, b, c, d, e, f][..5] == [a, b, c, d, e] && [a, b, c, d, e][..4] == [a, b, c, d];
    assert [a, b, c, d][..3] == [a, b, c] && [a, b, c][..2] == [a, b] && [a, b][..1] == [a] && [a][..0] == [];
    assert Run(s, [a]) == Next(s, a);
    assert Run(s, [a, b]) == Next(Run(s, [a]), b);
    assert Run(s, [a, b, c]) == Next(Run(s, [a, b]), c);
    assert Run(s, [a, b, c, d]) == Next(Run(s, [a, b, c]), d);
    assert Run(s, [a, b, c, d, e]) == Next(Run(s, [a, b, c, d]), e);
  }

  lemma BothApproved(s: State, id: nat, c: nat, d: nat)
    requires Live(s, id) && s.clock <= s.sessions[id].expiresAt && c !in s.pending && d !in s.pending && c != d
    ensures Next(Next(s, Check(c, id, true)), Check(d, id, true))
         == s.(pending := s.pending[c := Exchange(id, false)][d := Exchange(id, false)])
  {
    assert Next(s, Check(c, id, true)) == s.(pending := s.pending[c := Exchange(id, false)]);
  }

  ghost predicate Holds(s: State, call: nat, id: nat, retired: bool) {
    call in s.pending && s.pending[call] == Exchange(id, retired)
  }

  lemma BothRetired(s: State, id: nat, c: nat, d: nat) returns (t: State)
    requires id < |s.sessions| && c != d && Holds(s, c, id, false) && Holds(s, d, id, false)
    ensures t == Next(Next(s, Retire(c)), Retire(d)) && |t.sessions| == |s.sessions|
    ensures Holds(t, c, id, true) && Holds(t, d, id, true)
  {
    var one := Next(s, Retire(c));
    assert Holds(one, c, id, true) && Holds(one, d, id, false) && |one.sessions| == |s.sessions|;
    t := Next(one, Retire(d));
  }

  lemma BothReplaced(s: State, id: nat, c: nat, d: nat, ttl: nat)
    requires id < |s.sessions| && c != d && Holds(s, c, id, true) && Holds(s, d, id, true)
    ensures var n, t := |s.sessions|, Next(Next(s, Replace(c, ttl)), Replace(d, ttl));
      ChildOf(t.sessions, n, id) && ChildOf(t.sessions, n + 1, id) && Live(t, n) && Live(t, n + 1)
  {
    var one := Next(s, Replace(c, ttl));
    assert Holds(one, d, id, true) && |one.sessions| == |s.sessions| + 1;
  }

  /** From every state: two overlapping exchanges of an unexpired live session both succeed, and leave two live successors. */
  lemma InterleavedRefreshForks(s: State, id: nat, c: nat, d: nat, ttl: nat)
    requires Live(s, id) && s.clock <= s.sessions[id].expiresAt && c !in s.pending && d !in s.pending && c != d
    ensures var n := |s.sessions|;
      var t := Run(s, [Check(c, id, true), Check(d, id, true), Retire(c), Retire(d), Replace(c, ttl), Replace(d, ttl)]);
      ChildOf(t.sessions, n, id) && ChildOf(t.sessions, n + 1, id) && Live(t, n) && Live(t, n + 1)
  {
    RunSix(s, Check(c, id, true), Check(d, id, true), Retire(c), Retire(d), Replace(c, ttl), Replace(d, ttl));
    BothApproved(s, id, c, d);
    var retired := BothRetired(Next(Next(s, Check(c, id, true)), Check(d, id, true)), id, c, d);
    BothReplaced(retired, id, c, d, ttl);
  }
}
