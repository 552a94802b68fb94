/**
 Exponential lockout of an account after repeated failed logins.

 `AttemptExact` says which attempts of a run are recorded as failures, `FailuresTakeTime` that
 the failures since the last success are at least as far apart as the locks between them.
 */
module Lockout {
  import opened Options
  import opened Integers

  const MAX_FAILED_LOGINS := 5
  const LOCKOUT_BASE_SECONDS := 60
  const MAX_DOUBLINGS := 6

  datatype User = User(failedLoginCount: nat, lockedUntil: Option<int>)

  /** What an attempt would run into, were the account not locked. */
  datatype Credentials = WrongPassword | InactiveAccount | MissingCode | WrongCode | Correct

  datatype Result = RateLimited | Refused | SignedIn

  function Pow2(n: nat): nat {
    if n == 0 then 1 else 2 * Pow2(n - 1)
  }

  /** Seconds the account is locked for by its `count`-th failure. */
  function Backoff(count: nat): nat
    requires count >= MAX_FAILED_LOGINS
  {
    LOCKOUT_BASE_SECONDS * Pow2(Min(count - MAX_FAILED_LOGINS, MAX_DOUBLINGS))
  }

  predicate Locked(user: User, now: int) {
    user.lockedUntil.Some? && user.lockedUntil.value > now
  }

  function FailedLogin(user: User, now: int): User {
    var count := user.failedLoginCount + 1;
    User(count, if count >= MAX_FAILED_LOGINS then Some(now + Backoff(count) * 1000) else None)
  }

  /** The account and the times of the failures recorded since its last success. */
  datatype State = State(user: User, failures: seq<int>)

  datatype Attempt = Attempt(at: int, credentials: Credentials)

  function Next(s: State, a: Attempt): State {
    if Locked(s.user, a.at) then s
    else
      match a.credentials
      case WrongPassword => State(FailedLogin(s.user, a.at), s.failures + [a.at])
      case WrongCode => State(FailedLogin(s.user, a.at), s.failures + [a.at])
      case InactiveAccount => s
      case MissingCode => s
      case Correct => State(User(0, None), [])
  }

  ghost function Run(attempts: seq<Attempt>): State {
    if attempts == [] then State(User(0, None), [])
    else Next(Run(attempts[..|attempts| - 1]), attempts[|attempts| - 1])
  }

  class Account {
    var user: User
    ghost var failures: seq<int>

    ghost function View(): State
      reads this
    {
      State(user, failures)
    }

    method RecordFailedLogin(now: int)
      modifies this
      ensures View() == State(FailedLogin(old(user), now), old(failures) + [now])
    {
      var count := user.failedLoginCount + 1;
      var lockedUntil := None;
      if count >= MAX_FAILED_LOGINS {
        var backoff := LOCKOUT_BASE_SECONDS * Pow2(Min(count - MAX_FAILED_LOGINS, MAX_DOUBLINGS));
        lockedUntil := Some(now + backoff * 1000);
      }
      user := User(count, lockedUntil);
      failures := failures + [now];
    }

    method Login(now: int, credentials: Credentials) returns (result: Result)
      modifies this
      ensures View() == Next(old(View()), Attempt(now, credentials))
      ensures result == RateLimited <==> Locked(old(user), now)
      ensures result == SignedIn <==> !Locked(old(user), now) && credentials == Correct
    {
      if user.lockedUntil.Some? && user.lockedUntil.value > now { return RateLimited; }
      match credentials {
        case WrongPassword => RecordFailedLogin(now); return Refused;
        case InactiveAccount => return Refused;
        case MissingCode => return Refused;
        case WrongCode => RecordFailedLogin(now); return Refused;
        case Correct =>
          user := User(0, None);
          failures := [];
          return SignedIn;
      }
    }
  }

  // ----- spacing -----

  ghost predicate Spaced(s: State) {
    && s.user.failedLoginCount == |s.failures|
    && (|s.failures| >= MAX_FAILED_LOGINS ==>
          s.user.lockedUntil == Some(s.failures[|s.failures| - 1] + Backoff(|s.failures|) * 1000))
    && (forall i :: MAX_FAILED_LOGINS <= i < |s.failures| ==> s.failures[i] >= s.failures[i - 1] + Backoff(i) * 1000)
  }

  lemma StepKeepsSpaced(s: State, a: Attempt)
    requires Spaced(s)
    ensures Spaced(Next(s, a))
  {
    var t := Next(s, a);
    if t != s && a.credentials != Correct {
      assert t.failures == s.failures + [a.at];
    }
  }

  lemma {:induction false} RunIsSpaced(attempts: seq<Attempt>)
    ensures Spaced(Run(attempts))
  {
    if attempts != [] {
      RunIsSpaced(attempts[..|attempts| - 1]);
      StepKeepsSpaced(Run(attempts[..|attempts| - 1]), attempts[|attempts| - 1]);
    }
  }

  /** The lock that a list of failures leaves behind. */
  ghost predicate LockedBy(failures: seq<int>, now: int) {
    |failures| >= 5 && now < failures[|failures| - 1] + 60_000 * Pow2(Min(|failures| - 5, 6))
  }

  lemma {:induction false} RunLocks(attempts: seq<Attempt>, now: int)
    ensures Locked(Run(attempts).user, now) <==> LockedBy(Run(attempts).failures, now)
  {
    if attempts != [] {
      RunLocks(attempts[..|attempts| - 1], now);
      RunLocks(attempts[..|attempts| - 1], attempts[|attempts| - 1].at);
      RunIsSpaced(attempts[..|attempts| - 1]);
      var s, a := Run(attempts[..|attempts| - 1]), attempts[|attempts| - 1];
      var failures := s.failures + [a.at];
      assert failures[|failures| - 1] == a.at;
    }
  }

  /**
   Over every run: an attempt is recorded as a failure if and only if the failures since the last
   success leave no lock and the password or the code is wrong; the list is emptied by a correct
   attempt without a lock; any other attempt changes nothing.
   */
  lemma AttemptExact(attempts: seq<Attempt>, a: Attempt)
    ensures var before := Run(attempts).failures;
      Run(attempts + [a]).failures ==
        if LockedBy(before, a.at) then before
        else if a.credentials in {WrongPassword, WrongCode} then before + [a.at]
        else if a.credentials == Correct then []
        else before
  {
    assert (attempts + [a])[..|attempts + [a]| - 1] == attempts;
    RunLocks(attempts, a.at);
  }

  ghost predicate AllWrong(attempts: seq<Attempt>) {
    forall i :: 0 <= i < |attempts| ==> attempts[i].credentials in {WrongPassword, WrongCode}
  }

  ghost function Times(attempts: seq<Attempt>): seq<int> {
    seq(|attempts|, i requires 0 <= i < |attempts| => attempts[i].at)
  }

  /** Up to five wrong attempts in a row after a success are recorded one by one. */
  lemma {:induction false} WrongAttemptsCount(attempts: seq<Attempt>, wrong: seq<Attempt>)
    requires Run(attempts).failures == [] && AllWrong(wrong) && |wrong| <= 5
    ensures Run(attempts + wrong).failures == Times(wrong)
  {
    if wrong == [] {
      assert attempts + wrong == attempts;
    } else {
      var n := |wrong| - 1;
      WrongAttemptsCount(attempts, wrong[..n]);
      assert attempts + wrong == (attempts + wrong[..n]) + [wrong[n]];
      AttemptExact(attempts + wrong[..n], wrong[n]);
      assert Times(wrong) == Times(wrong[..n]) + [wrong[n].at];
    }
  }

  /** In particular the fifth wrong attempt in a row locks the account for a minute. */
  lemma FifthLocks(attempts: seq<Attempt>, wrong: seq<Attempt>, now: int)
    requires Run(attempts).failures == [] && AllWrong(wrong) && |wrong| == 5
    ensures Locked(Run(attempts + wrong).user, now) <==> now < wrong[4].at + 60_000
  {
    WrongAttemptsCount(attempts, wrong);
    RunLocks(attempts + wrong, now);
    assert Pow2(0) == 1;
  }

  /** Seconds the locks between the fifth and the n-th failure add up to. */
  ghost function LockedSeconds(n: nat): nat
    requires n >= MAX_FAILED_LOGINS
  {
    if n == MAX_FAILED_LOGINS then 0 else LockedSeconds(n - 1) + Backoff(n - 1)
  }

  lemma {:induction false} BackoffBounds(count: nat)
    requires count >= MAX_FAILED_LOGINS
    ensures Backoff(count) <= 3_840
    ensures count >= 11 ==> Backoff(count) == 3_840
  {
    assert Pow2(6) == 64 by { assert Pow2(3) == 8; }
    Pow2Monotone(Min(count - MAX_FAILED_LOGINS, MAX_DOUBLINGS), 6);
  }

  lemma {:induction false} Pow2Monotone(a: nat, b: nat)
    requires a <= b
    ensures Pow2(a) <= Pow2(b)
  {
    if a < b { Pow2Monotone(a, b - 1); }
  }

  /** 60, 180, 420, ... seconds up to the twelfth failure, then an hour and four minutes for each one. */
  lemma {:induction false} LockedSecondsClosed(n: nat)
    requires n >= MAX_FAILED_LOGINS
    ensures n <= 12 ==> LockedSeconds(n) == 60 * (Pow2(n - 5) - 1)
    ensures n >= 12 ==> LockedSeconds(n) == 7_620 + 3_840 * (n - 12)
  {
    assert Pow2(7) == 128 by { assert Pow2(4) == 16; }
    if n > MAX_FAILED_LOGINS {
      LockedSecondsClosed(n - 1);
      BackoffBounds(n - 1);
    }
  }

  lemma {:induction false} SpacingAddsUp(s: State, n: nat)
    requires Spaced(s) && MAX_FAILED_LOGINS <= n <= |s.failures|
    ensures s.failures[n - 1] - s.failures[4] >= LockedSeconds(n) * 1000
  {
    if n > MAX_FAILED_LOGINS { SpacingAddsUp(s, n - 1); }
  }

  /**
   From the fifth to the n-th failure recorded since the last success at least the sum of the
   locks has passed; and the n-th is followed by a lock of its own.
   */
  lemma FailuresTakeTime(attempts: seq<Attempt>, n: nat)
    requires MAX_FAILED_LOGINS <= n <= |Run(attempts).failures|
    ensures var failures := Run(attempts).failures;
      && (n <= 12 ==> failures[n - 1] - failures[4] >= 60_000 * (Pow2(n - 5) - 1))
      && (n >= 12 ==> failures[n - 1] - failures[4] >= 7_620_000 + 3_840_000 * (n - 12))
    ensures forall now :: n == |Run(attempts).failures| ==>
      (Locked(Run(attempts).user, now) <==> now < Run(attempts).failures[n - 1] + Backoff(n) * 1000)
  {
    RunIsSpaced(attempts);
    SpacingAddsUp(Run(attempts), n);
    LockedSecondsClosed(n);
  }
}
