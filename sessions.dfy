/**
 * The session entity (model/UserSession.java): a session belongs to one user,
 * has a start time, a last-activity time and a timeout, and is valid while it
 * is not logged out and its last activity plus its timeout lies in the future.
 */
module Sessions {
  import opened Users

  /**
   * A session record. The not-null columns (`user`, `startTime`,
   * `lastActivity`, `timeout`, `sessionKey`) are plain values here, so a
   * record cannot lack one. The store-assigned `id` is never read by the
   * services and is left out.
   */
  datatype UserSession = UserSession(
    user: UserId,
    startTime: Time,
    lastActivity: Time,
    timeout: int,
    loggedOut: bool,
    sessionKey: string)

  /**
   * `new UserSession()` with every not-null field then set: `loggedOut` keeps
   * its initial `false`, and the last activity is the start.
   */
  function NewSession(user: UserId, start: Time, timeout: int, key: string): (s: UserSession)
    ensures !s.loggedOut
    ensures s.user == user && s.sessionKey == key && s.timeout == timeout
    ensures s.startTime == start && s.lastActivity == start
  {
    UserSession(user, start, start, timeout, false, key)
  }

  /** The session has not timed out at `now`. */
  predicate Unexpired(s: UserSession, now: Time) {
    s.lastActivity + s.timeout > now
  }

  /** The validity rule of the entity's documentation. */
  predicate IsValid(s: UserSession, now: Time) {
    !s.loggedOut && Unexpired(s, now)
  }

  /** The setter `setLoggedOut`. */
  function SetLoggedOut(s: UserSession, loggedOut: bool): (r: UserSession)
    ensures r.loggedOut == loggedOut
    ensures r.user == s.user && r.startTime == s.startTime && r.lastActivity == s.lastActivity
    ensures r.timeout == s.timeout && r.sessionKey == s.sessionKey
  {
    s.(loggedOut := loggedOut)
  }

  /** The entity's own invariant: last activity is never before the start. */
  predicate WellFormed(s: UserSession) {
    s.startTime <= s.lastActivity
  }

  /** A fresh session is well formed and valid until its timeout runs out. */
  lemma NewSessionValid(user: UserId, start: Time, timeout: int, key: string, now: Time)
    ensures WellFormed(NewSession(user, start, timeout, key))
    ensures IsValid(NewSession(user, start, timeout, key), now) <==> now < start + timeout
  {
  }

  /** A logged-out session is invalid whatever its timeout, and logging out is idempotent. */
  lemma LoggedOutIsInvalid(s: UserSession, now: Time)
    ensures !IsValid(SetLoggedOut(s, true), now)
    ensures SetLoggedOut(SetLoggedOut(s, true), true) == SetLoggedOut(s, true)
    ensures WellFormed(s) ==> WellFormed(SetLoggedOut(s, true))
  {
  }

  /**
   * Expiry is final: a session invalid at some time stays invalid at every
   * later time.
   */
  lemma InvalidStaysInvalid(s: UserSession, now: Time, later: Time)
    requires now <= later
    requires !IsValid(s, now)
    ensures !IsValid(s, later)
  {
  }
}
