/**
 * The authentication service (service/AuthenticationWebService.java): check
 * an email and password, log out the user's previous session, and open a new
 * one whose key is handed back.
 */
module AuthService {
  import opened Outcomes
  import opened Query
  import opened Users
  import opened Sessions
  import opened Store
  import opened UserService

  /** The timeout given to every new session: one hour, in milliseconds. */
  const SessionTimeout: int := 1000 * 60 * 60

  /** The body of `POST authenticate`; either field may be missing. */
  datatype AuthenticationRequest = AuthenticationRequest(email: Option<string>, password: Option<string>)

  /** AuthenticationResult.Result */
  datatype AuthState = GRANTED | DENIED

  /** AuthenticationResult: a state and a session key, either of them possibly unset. */
  datatype AuthenticationResult = AuthenticationResult(state: Option<AuthState>, sessionKey: Option<string>)

  /** The answer to every refused request: DENIED and no key. */
  const Denied: AuthenticationResult := AuthenticationResult(Some(DENIED), None)

  /**
   * The row matches the query of `txLogoutExistingSession`: the session is the
   * user's and has not timed out. Whether it is logged out is not looked at.
   */
  predicate ScanMatches(s: UserSession, userId: UserId, now: Time) {
    s.user == userId && Unexpired(s, now)
  }

  /** The rows that query returns, as positions in the session table. */
  function ScannedSessions(sessions: seq<UserSession>, userId: UserId, now: Time): seq<nat> {
    IndicesWhere(sessions, (s: UserSession) => ScanMatches(s, userId, now))
  }

  /** Exactly one session, the one at `i`, matches the query. */
  predicate OnlyScanned(sessions: seq<UserSession>, userId: UserId, now: Time, i: nat) {
    && i < |sessions| && ScanMatches(sessions[i], userId, now)
    && forall j :: 0 <= j < |sessions| && j != i ==> !ScanMatches(sessions[j], userId, now)
  }

  /** At least two sessions match the query. */
  predicate SeveralScanned(sessions: seq<UserSession>, userId: UserId, now: Time) {
    exists i, j :: 0 <= i < j < |sessions| && ScanMatches(sessions[i], userId, now) && ScanMatches(sessions[j], userId, now)
  }

  /**
   * What `txLogoutExistingSession` returns and the session table it leaves:
   * with several matches it throws and writes nothing; with one it marks that
   * session logged out and returns it; with none it returns null.
   */
  function LogoutEffect(sessions: seq<UserSession>, userId: UserId, now: Time): (r: (Outcome<Option<UserSession>>, seq<UserSession>))
    ensures r.0.Threw? <==> SeveralScanned(sessions, userId, now)
    ensures r.0.Threw? ==> r.0.fault == DuplicateUserEmailDetected && r.1 == sessions
    ensures r.0 == Returned(None) <==> forall i :: 0 <= i < |sessions| ==> !ScanMatches(sessions[i], userId, now)
    ensures r.0 == Returned(None) ==> r.1 == sessions
    ensures forall i: nat :: OnlyScanned(sessions, userId, now, i) ==>
      r == (Returned(Some(SetLoggedOut(sessions[i], true))), sessions[i := SetLoggedOut(sessions[i], true)])
    ensures |r.1| == |sessions|
    ensures forall i :: 0 <= i < |sessions| ==> r.1[i] == sessions[i] || r.1[i] == SetLoggedOut(sessions[i], true)
  {
    var list := ScannedSessions(sessions, userId, now);
    SeveralSelected(sessions, (s: UserSession) => ScanMatches(s, userId, now));
    NoneSelected(sessions, (s: UserSession) => ScanMatches(s, userId, now));
    if |list| > 1 then (Threw(DuplicateUserEmailDetected), sessions)
    else if |list| == 1 then
      OneSelected(sessions, (s: UserSession) => ScanMatches(s, userId, now));
      var found := SetLoggedOut(sessions[list[0]], true);
      (Returned(Some(found)), sessions[list[0] := found])
    else
      (Returned(None), sessions)
  }

  /**
   * What `txLogin` returns and the session table it leaves: one new session
   * for the user, appended, starting now with the one-hour timeout, not logged
   * out, under the given key.
   */
  function LoginEffect(sessions: seq<UserSession>, userId: UserId, now: Time, key: string): (r: (UserSession, seq<UserSession>))
    ensures |r.1| == |sessions| + 1 && r.1[..|sessions|] == sessions && r.1[|sessions|] == r.0
    ensures r.0.user == userId && r.0.sessionKey == key && !r.0.loggedOut
    ensures r.0.startTime == now && r.0.lastActivity == now && r.0.timeout == 3_600_000
  {
    var userSession := NewSession(userId, now, SessionTimeout, key);
    (userSession, sessions + [userSession])
  }

  /**
   * What `authenticate` returns and the session table it leaves. A lookup
   * fault leaves the user unknown; a session-scan fault is dropped and the
   * login goes ahead; the success answer carries the key but no state.
   */
  function AuthenticateEffect(users: seq<User>, sessions: seq<UserSession>, request: AuthenticationRequest, now: Time, key: string)
    : (r: (Outcome<AuthenticationResult>, seq<UserSession>))
    requires PersistedTable(users)
    ensures r.0 == Returned(Denied) || r.0 == Threw(NullPointer) || r.0 == Returned(AuthenticationResult(None, Some(key)))
    ensures r.0.Returned? ==> r.0.value.state != Some(GRANTED)
    ensures r.0.Threw? ==> r.0.fault == NullPointer && request.password.None?
    ensures r.0 == Returned(Denied) || r.0.Threw? ==> r.1 == sessions
    ensures r.0.Returned? && r.0.value.sessionKey.Some? ==>
      && r.0.value.sessionKey == Some(key)
      && |r.1| == |sessions| + 1
      && (exists i: nat :: OnlyMatch(users, request.email, i) && users[i].password == request.password
            && r.1[|sessions|].user == i)
      && r.1[|sessions|].sessionKey == key && !r.1[|sessions|].loggedOut && r.1[|sessions|].startTime == now
      && (forall i :: 0 <= i < |sessions| ==> r.1[i] == sessions[i] || r.1[i] == SetLoggedOut(sessions[i], true))
  {
    var found := FindUser(users, request.email);
    var foundUser := if found.Returned? then found.value else None;
    if foundUser.None? then (Returned(Denied), sessions)
    else if request.password.None? then (Threw(NullPointer), sessions)  // request.password.equals(...) on null
    else if request.password != foundUser.value.password then (Returned(Denied), sessions)
    else
      var userId := foundUser.value.id.value;
      var afterLogout := LogoutEffect(sessions, userId, now).1;
      var (newSession, afterLogin) := LoginEffect(afterLogout, userId, now, key);
      (Returned(AuthenticationResult(None, Some(newSession.sessionKey))), afterLogin)
  }

  class AuthenticationWebService {
    const db: Database
    const userManagement: UserManagement

    /** Both services work on the same database. */
    ghost predicate Wired() {
      userManagement.db == db
    }

    constructor (db: Database, userManagement: UserManagement)
      requires userManagement.db == db
      ensures this.db == db && this.userManagement == userManagement
      ensures Wired()
    {
      this.db := db;
      this.userManagement := userManagement;
    }

    /** `txLogin`: build the user's new session and save it. */
    method TxLogin(userId: UserId, now: Time, freshKey: string) returns (userSession: UserSession)
      requires db.Valid()
      requires KeyUnused(db.sessions, freshKey)
      modifies db
      ensures db.Valid()
      ensures db.users == old(db.users)
      ensures (userSession, db.sessions) == LoginEffect(old(db.sessions), userId, now, freshKey)
    {
      userSession := NewSession(userId, now, SessionTimeout, freshKey);
      db.sessions := db.sessions + [userSession];
    }

    /** `txLogoutExistingSession`: log out the user's one unexpired session, if any. */
    method TxLogoutExistingSession(userId: UserId, now: Time) returns (r: Outcome<Option<UserSession>>)
      requires db.Valid()
      modifies db
      ensures db.Valid()
      ensures db.users == old(db.users)
      ensures (r, db.sessions) == LogoutEffect(old(db.sessions), userId, now)
    {
      var list := ScannedSessions(db.sessions, userId, now);
      SeveralSelected(db.sessions, (s: UserSession) => ScanMatches(s, userId, now));
      if |list| > 1 {
        return Threw(DuplicateUserEmailDetected);
      }
      var foundSession: Option<UserSession> := None;
      if |list| == 1 {
        OneSelected(db.sessions, (s: UserSession) => ScanMatches(s, userId, now));
        var s := SetLoggedOut(db.sessions[list[0]], true);
        db.sessions := db.sessions[list[0] := s];
        foundSession := Some(s);
      }
      return Returned(foundSession);
    }

    /** `authenticate`: check the credentials, replace the user's session, hand back its key. */
    method Authenticate(request: AuthenticationRequest, now: Time, freshKey: string) returns (r: Outcome<AuthenticationResult>)
      requires Wired()
      requires db.Valid()
      requires KeyUnused(db.sessions, freshKey)
      modifies db
      ensures db.Valid()
      ensures db.users == old(db.users)
      ensures (r, db.sessions) == AuthenticateEffect(old(db.users), old(db.sessions), request, now, freshKey)
    {
      var found := userManagement.TxFindUser(request.email);
      // A DuplicateUserEmailDetected is logged and dropped: the user stays unknown.
      var foundUser: Option<User> := None;
      if found.Returned? {
        foundUser := found.value;
      }

      var failResult := AuthenticationResult(Some(DENIED), None);
      if foundUser.None? {
        return Returned(failResult);
      }
      if request.password.None? {
        return Threw(NullPointer);
      }
      var matches := request.password == foundUser.value.password;
      if !matches {
        return Returned(failResult);
      }

      var userId := foundUser.value.id.value;
      // A DuplicateUserEmailDetected from the scan is logged and dropped.
      var oldExistingSession := TxLogoutExistingSession(userId, now);
      var newSession := TxLogin(userId, now, freshKey);
      r := Returned(AuthenticationResult(None, Some(newSession.sessionKey)));
    }
  }

  // ---------------------------------------------------------------------------
  // What authenticate promises

  /**
   * An email that matches no user, or matches several (the lookup fault is
   * swallowed), is denied with no key, and the session table is untouched.
   */
  lemma UnknownUserDenied(users: seq<User>, sessions: seq<UserSession>, request: AuthenticationRequest, now: Time, key: string)
    requires PersistedTable(users)
    requires NoSingleMatch(users, request.email)
    ensures AuthenticateEffect(users, sessions, request, now, key) == (Returned(Denied), sessions)
  {
    NoSingleMatchFindsNoUser(users, request.email);
  }

  /** A wrong password is denied with no key, and the session table is untouched. */
  lemma WrongPasswordDenied(users: seq<User>, sessions: seq<UserSession>, request: AuthenticationRequest, now: Time, key: string, i: nat)
    requires PersistedTable(users)
    requires OnlyMatch(users, request.email, i)
    requires request.password.Some? && request.password != users[i].password
    ensures AuthenticateEffect(users, sessions, request, now, key) == (Returned(Denied), sessions)
  {
  }

  /** A request without a password for a known email ends in a null dereference, writing nothing. */
  lemma MissingPasswordThrows(users: seq<User>, sessions: seq<UserSession>, request: AuthenticationRequest, now: Time, key: string, i: nat)
    requires PersistedTable(users)
    requires OnlyMatch(users, request.email, i)
    requires request.password.None?
    ensures AuthenticateEffect(users, sessions, request, now, key) == (Threw(NullPointer), sessions)
  {
  }

  /**
   * The right password gets the new session's key, with the state left unset;
   * the table gains exactly one session, the user's, at the end, after the
   * scan has logged out at most one earlier session.
   */
  lemma CorrectPasswordLogsIn(users: seq<User>, sessions: seq<UserSession>, request: AuthenticationRequest, now: Time, key: string, i: nat)
    requires PersistedTable(users)
    requires OnlyMatch(users, request.email, i)
    requires request.password == users[i].password
    ensures var (r, after) := AuthenticateEffect(users, sessions, request, now, key);
      && r == Returned(AuthenticationResult(None, Some(key)))
      && |after| == |sessions| + 1
      && after[..|sessions|] == LogoutEffect(sessions, i, now).1
      && after[|sessions|] == NewSession(i, now, SessionTimeout, key)
  {
  }

  /**
   * When the scan faults, the login still goes ahead: the earlier sessions
   * are left exactly as they were and the new one is appended.
   */
  lemma ScanFaultStillLogsIn(users: seq<User>, sessions: seq<UserSession>, request: AuthenticationRequest, now: Time, key: string, i: nat)
    requires PersistedTable(users)
    requires OnlyMatch(users, request.email, i)
    requires request.password == users[i].password
    requires SeveralScanned(sessions, i, now)
    ensures AuthenticateEffect(users, sessions, request, now, key)
      == (Returned(AuthenticationResult(None, Some(key))), sessions + [NewSession(i, now, SessionTimeout, key)])
  {
  }

  /**
   * When at most one unexpired session of the user existed, a successful
   * authentication leaves the new session as the user's only valid one.
   */
  lemma {:induction false} LoginLeavesSingleValidSession(users: seq<User>, sessions: seq<UserSession>, request: AuthenticationRequest, now: Time, key: string, i: nat)
    requires PersistedTable(users)
    requires OnlyMatch(users, request.email, i)
    requires request.password == users[i].password
    requires !SeveralScanned(sessions, i, now)
    ensures var after := AuthenticateEffect(users, sessions, request, now, key).1;
      forall k :: 0 <= k < |after| ==> (after[k].user == i && IsValid(after[k], now) <==> k == |sessions|)
  {
    CorrectPasswordLogsIn(users, sessions, request, now, key, i);
    var after := AuthenticateEffect(users, sessions, request, now, key).1;
    var logout := LogoutEffect(sessions, i, now);
    forall k | 0 <= k < |sessions|
      ensures !(after[k].user == i && IsValid(after[k], now))
    {
      assert after[k] == logout.1[k];
      if ScanMatches(sessions[k], i, now) {
        assert OnlyScanned(sessions, i, now, k);
        assert logout.1[k] == SetLoggedOut(sessions[k], true);
      } else {
        assert logout.1[k] == sessions[k] || logout.1[k] == SetLoggedOut(sessions[k], true);
      }
    }
  }

  /**
   * The scan ignores `loggedOut`: a user with a valid session and a
   * logged-out but unexpired one makes the scan fault, so after a successful
   * login both the old valid session and the new one are valid.
   */
  lemma LoggedOutSessionDefeatsSingleSession(users: seq<User>, sessions: seq<UserSession>, request: AuthenticationRequest, now: Time, key: string, i: nat, live: nat, dead: nat)
    requires PersistedTable(users)
    requires OnlyMatch(users, request.email, i)
    requires request.password == users[i].password
    requires live < |sessions| && dead < |sessions| && live != dead
    requires sessions[live].user == i && IsValid(sessions[live], now)
    requires sessions[dead].user == i && sessions[dead].loggedOut && Unexpired(sessions[dead], now)
    ensures var after := AuthenticateEffect(users, sessions, request, now, key).1;
      && |after| == |sessions| + 1
      && after[live].user == i && IsValid(after[live], now)
      && after[|sessions|].user == i && IsValid(after[|sessions|], now)
  {
    if live < dead {
      assert SeveralScanned(sessions, i, now);
    } else {
      assert ScanMatches(sessions[dead], i, now) && ScanMatches(sessions[live], i, now);
      assert SeveralScanned(sessions, i, now);
    }
    ScanFaultStillLogsIn(users, sessions, request, now, key, i);
  }

  /**
   * Two successful logins of a user who had no unexpired session, the second
   * within the hour: the first session ends logged out and the second is the
   * user's only valid session.
   */
  lemma {:induction false} SecondLoginSupersedesFirst(
    users: seq<User>, sessions: seq<UserSession>, request: AuthenticationRequest,
    first: Time, second: Time, key1: string, key2: string, i: nat)
    requires PersistedTable(users)
    requires OnlyMatch(users, request.email, i)
    requires request.password == users[i].password
    requires forall k :: 0 <= k < |sessions| ==> !ScanMatches(sessions[k], i, first)
    requires first <= second < first + SessionTimeout
    ensures var afterFirst := AuthenticateEffect(users, sessions, request, first, key1).1;
      var afterSecond := AuthenticateEffect(users, afterFirst, request, second, key2).1;
      && |afterSecond| == |sessions| + 2
      && afterSecond[|sessions|].loggedOut
      && afterSecond[|sessions|].sessionKey == key1
      && forall k :: 0 <= k < |afterSecond| ==> (afterSecond[k].user == i && IsValid(afterSecond[k], second) <==> k == |sessions| + 1)
  {
    var n := |sessions|;
    var afterFirst := sessions + [NewSession(i, first, SessionTimeout, key1)];
    LoginWithoutLiveSession(users, sessions, request, first, key1, i);
    NewSessionOnlyScanned(sessions, i, first, second, key1);
    CorrectPasswordLogsIn(users, afterFirst, request, second, key2, i);
    LoginLeavesSingleValidSession(users, afterFirst, request, second, key2, i);
    var afterSecond := AuthenticateEffect(users, afterFirst, request, second, key2).1;
    assert afterSecond[n] == LogoutEffect(afterFirst, i, second).1[n];
  }

  /** With no unexpired session of the user, a successful login only appends the new session. */
  lemma LoginWithoutLiveSession(users: seq<User>, sessions: seq<UserSession>, request: AuthenticationRequest, now: Time, key: string, i: nat)
    requires PersistedTable(users)
    requires OnlyMatch(users, request.email, i)
    requires request.password == users[i].password
    requires forall k :: 0 <= k < |sessions| ==> !ScanMatches(sessions[k], i, now)
    ensures AuthenticateEffect(users, sessions, request, now, key).1 == sessions + [NewSession(i, now, SessionTimeout, key)]
  {
    CorrectPasswordLogsIn(users, sessions, request, now, key, i);
    assert LogoutEffect(sessions, i, now).1 == sessions;
  }

  /** Within the hour, the session a login just opened is the only one the next scan selects. */
  lemma NewSessionOnlyScanned(sessions: seq<UserSession>, i: nat, first: Time, second: Time, key: string)
    requires forall k :: 0 <= k < |sessions| ==> !ScanMatches(sessions[k], i, first)
    requires first <= second < first + SessionTimeout
    ensures OnlyScanned(sessions + [NewSession(i, first, SessionTimeout, key)], i, second, |sessions|)
    ensures !SeveralScanned(sessions + [NewSession(i, first, SessionTimeout, key)], i, second)
  {
    var afterFirst := sessions + [NewSession(i, first, SessionTimeout, key)];
    forall k | 0 <= k < |afterFirst| && k != |sessions|
      ensures !ScanMatches(afterFirst[k], i, second)
    {
      assert afterFirst[k] == sessions[k];
    }
  }
}
