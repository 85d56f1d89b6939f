/**
 * The lockout rules both login handlers apply to a user record: a failed
 * password raises the attempt counter while it is below 9 and blocks the
 * account once it reaches 9; a successful login resets the counter and
 * stamps the login time; only accounts inside the 365-day window from
 * their creation may log in.
 */
module Accounts {
  import opened Orm

  /** The counter value at which the next failure blocks instead of counting. */
  const MaxAttempt := 9

  /** 365×24 hours, in seconds. */
  const LoginWindow: int := 365 * 24 * 3600

  /** The record after a wrong password. */
  function AfterFailure(u: User): (v: User)
    ensures u.attempt < MaxAttempt ==> v == u.(attempt := u.attempt + 1)
    ensures u.attempt >= MaxAttempt ==> v == u.(blocked := true)
  {
    if u.attempt < MaxAttempt then u.(attempt := u.attempt + 1) else u.(blocked := true)
  }

  /** The record after a login that went through. */
  function AfterSuccess(u: User, now: int): (v: User)
    ensures v.attempt == 0 && v.lastLogin == now
    ensures v.(attempt := u.attempt, lastLogin := u.lastLogin) == u
  {
    u.(lastLogin := now, attempt := 0)
  }

  /** One failed login as the handlers treat it: a blocked account is refused before the password is looked at. */
  function FailedLogin(u: User): User
  {
    if u.blocked then u else AfterFailure(u)
  }

  /** `n` failed logins in a row. */
  function FailedLogins(u: User, n: nat): User
    decreases n
  {
    if n == 0 then u else FailedLogins(FailedLogin(u), n - 1)
  }

  /** A blocked account stays as it is however often it is tried. */
  lemma {:induction false} BlockedStays(u: User, n: nat)
    requires u.blocked
    ensures FailedLogins(u, n) == u
  {
    if n > 0 {
      BlockedStays(u, n - 1);
    }
  }

  /**
   * From an unblocked record with the counter in range, `n` failures count
   * up to 9 and then block, leaving the counter at 9.
   */
  lemma {:induction false} RepeatedFailures(u: User, n: nat)
    requires !u.blocked && 0 <= u.attempt <= MaxAttempt
    ensures FailedLogins(u, n) ==
      if u.attempt + n <= MaxAttempt then u.(attempt := u.attempt + n)
      else u.(attempt := MaxAttempt, blocked := true)
    decreases n
  {
    if n > 0 {
      if u.attempt < MaxAttempt {
        RepeatedFailures(u.(attempt := u.attempt + 1), n - 1);
      } else {
        BlockedStays(u.(blocked := true), n - 1);
      }
    }
  }

  /**
   * Starting from a clean record, the counter never exceeds 9, nine
   * failures leave the account open and the tenth blocks it.
   */
  lemma TenthFailureBlocks(u: User, n: nat)
    requires !u.blocked && u.attempt == 0
    ensures 0 <= FailedLogins(u, n).attempt <= MaxAttempt
    ensures FailedLogins(u, n).blocked <==> n >= 10
  {
    RepeatedFailures(u, n);
  }

  /** The record was created less than 365 days before `now`. */
  predicate InWindow(u: User, now: int)
  {
    now - u.createdAt < LoginWindow
  }

  /** The current handler's test: the record has been updated at least once and is inside the window. */
  predicate MayLogIn(u: User, now: int): (ok: bool)
    ensures ok <==> u.updatedAt != ZeroTime && now < u.createdAt + 365 * 24 * 3600
  {
    u.updatedAt != ZeroTime && InWindow(u, now)
  }

  /** The older handler's test, with the update-time condition the other way round. */
  predicate MayLogInLegacy(u: User, now: int): (ok: bool)
    ensures ok <==> u.updatedAt == ZeroTime && now < u.createdAt + 365 * 24 * 3600
  {
    u.updatedAt == ZeroTime && InWindow(u, now)
  }

  /** No record passes both tests: the two handlers never both let the same account in at the same time. */
  lemma LoginTestsDisjoint(u: User, now: int)
    ensures !(MayLogIn(u, now) && MayLogInLegacy(u, now))
    ensures InWindow(u, now) ==> (MayLogIn(u, now) <==> !MayLogInLegacy(u, now))
  {
  }
}
