/**
 * The user service (service/UserManagement.java): lookup by email, saving,
 * and the create-or-recognise flow behind `POST users`.
 */
module UserService {
  import opened Outcomes
  import opened Results
  import opened Query
  import opened Patterns
  import opened Users
  import opened Store

  /** Days an unconfirmed user may keep using the system. */
  const UnconfirmedMaxDays: int := 7

  /** Milliseconds in a day. */
  const MillisPerDay: int := 1000 * 60 * 60 * 24

  /** The fields a creation request carries; either may be missing. */
  datatype CreateUserCommand = CreateUserCommand(email: Option<string>, password: Option<string>)

  /** The (still empty) invitation request. */
  datatype InviteUserCommand = InviteUserCommand

  /** CreateUserResult.Code */
  datatype Code = USER_CREATED | EXISTS_GOOD_CREDS | EXISTS_BAD_CREDS | EXISTS_UNCONFIRMED_EMAIL_DUE | VALIDATION_FAILED

  /** CreateUserResult: the code, and the validation results when validation failed. */
  datatype CreateUserResult = CreateUserResult(resultCode: Code, validationResults: Option<seq<ValidationResult>>)

  /**
   * `CreateUserCommand.buildUser`: a fresh user whose email and password are
   * the command's; every other field keeps its initial value.
   */
  function BuildUser(cmd: CreateUserCommand, now: Time): (u: User)
    ensures u.email == cmd.email && u.password == cmd.password
    ensures u.(email := None, password := None) == NewUser(now)
  {
    NewUser(now).(email := cmd.email, password := cmd.password)
  }

  /** The row matches the lookup `u.email like :email`; a null parameter matches no row. */
  predicate EmailMatches(u: User, email: Option<string>) {
    email.Some? && u.email.Some? && Like(u.email.value, email.value)
  }

  /** Exactly one stored user, the one at `i`, matches the lookup. */
  predicate OnlyMatch(users: seq<User>, email: Option<string>, i: nat) {
    && i < |users| && EmailMatches(users[i], email)
    && forall j :: 0 <= j < |users| && j != i ==> !EmailMatches(users[j], email)
  }

  /** The lookup finds no user to work with: none matches, or two or more do. */
  predicate NoSingleMatch(users: seq<User>, email: Option<string>) {
    || (forall i :: 0 <= i < |users| ==> !EmailMatches(users[i], email))
    || (exists i, j :: 0 <= i < j < |users| && EmailMatches(users[i], email) && EmailMatches(users[j], email))
  }

  /** The rows the lookup query returns, as positions in the table. */
  function MatchingUsers(users: seq<User>, email: Option<string>): seq<nat> {
    IndicesWhere(users, (u: User) => EmailMatches(u, email))
  }

  /**
   * `txFindUser`: throws when more than one user matches, returns the user
   * when exactly one does, and null when none does.
   */
  function FindUser(users: seq<User>, email: Option<string>): (r: Outcome<Option<User>>)
    ensures r.Threw? <==>
      exists i, j :: 0 <= i < j < |users| && EmailMatches(users[i], email) && EmailMatches(users[j], email)
    ensures r.Threw? ==> r.fault == DuplicateUserEmailDetected
    ensures r == Returned(None) <==> forall i :: 0 <= i < |users| ==> !EmailMatches(users[i], email)
    ensures forall i: nat :: OnlyMatch(users, email, i) ==> r == Returned(Some(users[i]))
    ensures r.Returned? && r.value.Some? ==> exists i: nat :: OnlyMatch(users, email, i) && r.value.value == users[i]
  {
    var found := MatchingUsers(users, email);
    SeveralSelected(users, (u: User) => EmailMatches(u, email));
    NoneSelected(users, (u: User) => EmailMatches(u, email));
    if |found| > 1 then Threw(DuplicateUserEmailDetected)
    else if |found| == 1 then
      OneSelected(users, (u: User) => EmailMatches(u, email));
      Returned(Some(users[found[0]]))
    else
      Returned(None)
  }

  /** When no single user matches, the lookup leaves the user unknown: null, or the swallowed fault. */
  lemma NoSingleMatchFindsNoUser(users: seq<User>, email: Option<string>)
    requires NoSingleMatch(users, email)
    ensures FindUser(users, email) == Returned(None) || FindUser(users, email).Threw?
  {
  }

  /** The violations found on a user about to be created: its email, then its password. */
  function CreationViolations(u: User): seq<ConstraintViolation> {
    ValidateProperty(u, "email") + ValidateProperty(u, "password")
  }

  /** The message a violation of the constraint carries. */
  function MessageOf(c: Constraint): Message {
    match c
    case NotNull => NotNullMessage
    case Pattern => PatternMessage
  }

  /** One validation result per violation, named after the violated property. */
  function ValidationResultsOf(vs: seq<ConstraintViolation>): seq<ValidationResult> {
    seq(|vs|, k requires 0 <= k < |vs| => ValidationResult(vs[k].propertyPath, MessageOf(vs[k].constraint)))
  }

  /** More than seven days have passed since the user's email was last checked. */
  predicate EmailCheckDue(u: User, now: Time) {
    now - u.lastEmailCheck > UnconfirmedMaxDays * MillisPerDay
  }

  /** The answer to a known user: the password decides, then the email-check rule. */
  function RecogniseEffect(u: User, cmd: CreateUserCommand, now: Time): (r: CreateUserResult)
    ensures r.validationResults.None?
    ensures r.resultCode in {EXISTS_GOOD_CREDS, EXISTS_BAD_CREDS, EXISTS_UNCONFIRMED_EMAIL_DUE}
    ensures r.resultCode == EXISTS_BAD_CREDS <==> u.password != cmd.password
    ensures r.resultCode == EXISTS_UNCONFIRMED_EMAIL_DUE <==>
      u.password == cmd.password && !u.confirmed && EmailCheckDue(u, now)
  {
    if u.password == cmd.password then
      if !u.confirmed && EmailCheckDue(u, now) then CreateUserResult(EXISTS_UNCONFIRMED_EMAIL_DUE, None)
      else CreateUserResult(EXISTS_GOOD_CREDS, None)
    else CreateUserResult(EXISTS_BAD_CREDS, None)
  }

  /** The answer and the table for an unknown user: validate, then save. */
  function CreationEffect(users: seq<User>, cmd: CreateUserCommand, now: Time): (r: (CreateUserResult, seq<User>))
    ensures r.0.resultCode in {USER_CREATED, VALIDATION_FAILED}
    ensures r.0.resultCode == USER_CREATED <==>
      cmd.email.Some? && ValidEmail(cmd.email.value) && cmd.password.Some? && ValidPassword(cmd.password.value)
    ensures r.0.resultCode == VALIDATION_FAILED ==>
      r.1 == users && r.0.validationResults.Some? && 1 <= |r.0.validationResults.value| <= 2
    ensures r.0.resultCode == USER_CREATED ==>
      && r.0.validationResults.None?
      && |r.1| == |users| + 1 && r.1[..|users|] == users
      && r.1[|users|].id == Some(|users|)
      && r.1[|users|].email == cmd.email && r.1[|users|].password == cmd.password
      && !r.1[|users|].confirmed && r.1[|users|].lastEmailCheck == now
    ensures PersistedTable(users) ==> PersistedTable(r.1)
  {
    var newUser := BuildUser(cmd, now);
    var violations := CreationViolations(newUser);
    if |violations| > 0 then (CreateUserResult(VALIDATION_FAILED, Some(ValidationResultsOf(violations))), users)
    else (CreateUserResult(USER_CREATED, None), users + [newUser.(id := Some(|users|))])
  }

  /**
   * What `createUser` answers and the user table it leaves behind. A
   * duplicate-email fault leaves the user unknown, as a miss does.
   */
  function CreateUserEffect(users: seq<User>, cmd: CreateUserCommand, now: Time): (r: (CreateUserResult, seq<User>))
    requires PersistedTable(users)
    ensures PersistedTable(r.1)
    ensures r.1 == users || (r.0.resultCode == USER_CREATED && |r.1| == |users| + 1 && r.1[..|users|] == users)
    ensures r.0.resultCode in {USER_CREATED, VALIDATION_FAILED} <==>
      !(FindUser(users, cmd.email).Returned? && FindUser(users, cmd.email).value.Some?)
  {
    var found := FindUser(users, cmd.email);
    var loadedUser := if found.Returned? then found.value else None;
    if loadedUser.Some? then (RecogniseEffect(loadedUser.value, cmd, now), users)
    else CreationEffect(users, cmd, now)
  }

  /** The loop of `createUser` that turns each violation into a validation result. */
  method ViolationsToResults(violations: seq<ConstraintViolation>) returns (results: seq<ValidationResult>)
    ensures |results| == |violations|
    ensures forall k :: 0 <= k < |results| ==>
      results[k].fieldName == violations[k].propertyPath && results[k].message == MessageOf(violations[k].constraint)
    ensures results == ValidationResultsOf(violations)
  {
    results := [];
    for i := 0 to |violations|
      invariant |results| == i
      invariant forall k :: 0 <= k < i ==>
        results[k].fieldName == violations[k].propertyPath && results[k].message == MessageOf(violations[k].constraint)
    {
      var current := violations[i];
      results := results + [ValidationResult(current.propertyPath, MessageOf(current.constraint))];
    }
  }

  class UserManagement {
    const db: Database

    constructor (db: Database)
      ensures this.db == db
    {
      this.db := db;
    }

    /** `txSaveUser`: the store assigns the next identifier and appends the user. */
    method TxSaveUser(newUser: User) returns (saved: User)
      requires db.Valid()
      requires newUser.email.Some? && newUser.password.Some?
      modifies db
      ensures db.Valid()
      ensures saved == newUser.(id := Some(|old(db.users)|))
      ensures db.users == old(db.users) + [saved]
      ensures db.sessions == old(db.sessions)
    {
      saved := newUser.(id := Some(|db.users|));
      db.users := db.users + [saved];
    }

    /** `txFindUser`: the lookup by email, reading the store only. */
    method TxFindUser(email: Option<string>) returns (r: Outcome<Option<User>>)
      ensures r == FindUser(db.users, email)
    {
      var list := MatchingUsers(db.users, email);
      if |list| > 1 {
        return Threw(DuplicateUserEmailDetected);
      }
      if |list| == 1 {
        return Returned(Some(db.users[list[0]]));
      }
      return Returned(None);
    }

    /** `archiveUser`: not implemented; always fails and changes nothing. */
    method ArchiveUser(userId: string) returns (r: Result)
      ensures r == Result(FAILURE, None)
    {
      r := Result(FAILURE, None);
    }

    /** `inviteUser`: not implemented; always fails and changes nothing. */
    method InviteUser(command: InviteUserCommand) returns (r: Result)
      ensures r == Result(FAILURE, None)
    {
      r := Result(FAILURE, None);
    }

    /**
     * `createUser`: recognise an existing user by email and password, or
     * validate and create a new one.
     */
    method CreateUser(cmd: CreateUserCommand, now: Time) returns (r: CreateUserResult)
      requires db.Valid()
      modifies db
      ensures db.Valid()
      ensures db.sessions == old(db.sessions)
      ensures (r, db.users) == CreateUserEffect(old(db.users), cmd, now)
    {
      var found := TxFindUser(cmd.email);
      // A DuplicateUserEmailDetected is logged and dropped: the user stays unknown.
      var loadedUser: Option<User> := None;
      if found.Returned? {
        loadedUser := found.value;
      }

      if loadedUser.Some? {
        var checksOut := loadedUser.value.password == cmd.password;
        if checksOut {
          var elapsed := now - loadedUser.value.lastEmailCheck;
          if !loadedUser.value.confirmed && elapsed > UnconfirmedMaxDays * MillisPerDay {
            r := CreateUserResult(EXISTS_UNCONFIRMED_EMAIL_DUE, None);
          } else {
            r := CreateUserResult(EXISTS_GOOD_CREDS, None);
          }
        } else {
          r := CreateUserResult(EXISTS_BAD_CREDS, None);
        }
        return;
      }

      var newUser := BuildUser(cmd, now);
      var constraintViolations := ValidateProperty(newUser, "email") + ValidateProperty(newUser, "password");
      if |constraintViolations| > 0 {
        var results := ViolationsToResults(constraintViolations);
        r := CreateUserResult(VALIDATION_FAILED, Some(results));
        return;
      }

      var _ := TxSaveUser(newUser);
      r := CreateUserResult(USER_CREATED, None);
    }
  }

  // ---------------------------------------------------------------------------
  // What createUser promises

  /** A known user with the wrong password is told so, and nothing is stored. */
  lemma ExistingUserWrongPassword(users: seq<User>, cmd: CreateUserCommand, now: Time, i: nat)
    requires PersistedTable(users)
    requires OnlyMatch(users, cmd.email, i)
    requires users[i].password != cmd.password
    ensures CreateUserEffect(users, cmd, now) == (CreateUserResult(EXISTS_BAD_CREDS, None), users)
  {
  }

  /**
   * A known user with the right password is recognised; the answer asks for
   * email confirmation exactly when the user is unconfirmed and more than
   * seven days have passed since the last email check. Nothing is stored.
   */
  lemma ExistingUserRightPassword(users: seq<User>, cmd: CreateUserCommand, now: Time, i: nat)
    requires PersistedTable(users)
    requires OnlyMatch(users, cmd.email, i)
    requires users[i].password == cmd.password
    ensures CreateUserEffect(users, cmd, now).1 == users
    ensures CreateUserEffect(users, cmd, now).0.validationResults.None?
    ensures CreateUserEffect(users, cmd, now).0.resultCode in {EXISTS_UNCONFIRMED_EMAIL_DUE, EXISTS_GOOD_CREDS}
    ensures CreateUserEffect(users, cmd, now).0.resultCode == EXISTS_UNCONFIRMED_EMAIL_DUE <==>
      !users[i].confirmed && now - users[i].lastEmailCheck > 7 * 86_400_000
  {
  }

  /** A confirmed user with the right password is recognised however long ago the email was checked. */
  lemma ConfirmedUserAlwaysRecognised(users: seq<User>, cmd: CreateUserCommand, now: Time, i: nat)
    requires PersistedTable(users)
    requires OnlyMatch(users, cmd.email, i)
    requires users[i].password == cmd.password
    requires users[i].confirmed
    ensures CreateUserEffect(users, cmd, now) == (CreateUserResult(EXISTS_GOOD_CREDS, None), users)
  {
  }

  /** The fields a command supplies break no constraint. */
  predicate CommandValid(cmd: CreateUserCommand) {
    && cmd.email.Some? && ValidEmail(cmd.email.value)
    && cmd.password.Some? && ValidPassword(cmd.password.value)
  }

  /**
   * `vr` reports exactly the fields of `cmd` that break their constraint, each
   * once: a missing field with the NotNull message, a present one that does
   * not match with the Pattern message.
   */
  predicate ReportsViolations(cmd: CreateUserCommand, vr: seq<ValidationResult>) {
    && (forall k :: 0 <= k < |vr| ==> vr[k].fieldName in {"email", "password"})
    && ((exists k :: 0 <= k < |vr| && vr[k].fieldName == "email") <==> !(cmd.email.Some? && ValidEmail(cmd.email.value)))
    && ((exists k :: 0 <= k < |vr| && vr[k].fieldName == "password") <==> !(cmd.password.Some? && ValidPassword(cmd.password.value)))
    && (forall k, l :: 0 <= k < l < |vr| ==> vr[k].fieldName != vr[l].fieldName)
    && (forall k :: 0 <= k < |vr| && vr[k].fieldName == "email" ==>
          vr[k].message == if cmd.email.Some? then PatternMessage else NotNullMessage)
    && (forall k :: 0 <= k < |vr| && vr[k].fieldName == "password" ==>
          vr[k].message == if cmd.password.Some? then PatternMessage else NotNullMessage)
  }

  /** An unknown user's request that breaks a constraint is refused field by field. */
  lemma CreationRefused(users: seq<User>, cmd: CreateUserCommand, now: Time)
    requires !CommandValid(cmd)
    ensures CreationEffect(users, cmd, now).1 == users
    ensures CreationEffect(users, cmd, now).0.resultCode == VALIDATION_FAILED
    ensures CreationEffect(users, cmd, now).0.validationResults.Some?
    ensures ReportsViolations(cmd, CreationEffect(users, cmd, now).0.validationResults.value)
  {
    var u := BuildUser(cmd, now);
    var ve := ValidateProperty(u, "email");
    var vp := ValidateProperty(u, "password");
    assert CreationViolations(u) == ve + vp;
    var vr := ValidationResultsOf(ve + vp);
    assert |ve + vp| > 0;
    assert CreationEffect(users, cmd, now).0.validationResults == Some(vr);
    if ve != [] {
      assert vr[0].fieldName == "email";
    }
    if vp != [] {
      assert vr[|ve|].fieldName == "password";
    }
  }

  /** An unknown user's valid request appends exactly one fresh user carrying the command's fields. */
  lemma CreationSaves(users: seq<User>, cmd: CreateUserCommand, now: Time)
    requires PersistedTable(users)
    requires CommandValid(cmd)
    ensures CreationEffect(users, cmd, now).0 == CreateUserResult(USER_CREATED, None)
    ensures CreationEffect(users, cmd, now).1 == users + [BuildUser(cmd, now).(id := Some(|users|))]
    ensures PersistedTable(CreationEffect(users, cmd, now).1)
  {
    var u := BuildUser(cmd, now);
    assert CreationViolations(u) == [];
  }

  /**
   * With no single user found, a request whose email or password breaks its
   * constraint is refused: one validation result per violated property, named
   * after it, and nothing stored.
   */
  lemma NewUserInvalid(users: seq<User>, cmd: CreateUserCommand, now: Time)
    requires PersistedTable(users)
    requires NoSingleMatch(users, cmd.email)
    requires !CommandValid(cmd)
    ensures CreateUserEffect(users, cmd, now).1 == users
    ensures CreateUserEffect(users, cmd, now).0.resultCode == VALIDATION_FAILED
    ensures CreateUserEffect(users, cmd, now).0.validationResults.Some?
    ensures ReportsViolations(cmd, CreateUserEffect(users, cmd, now).0.validationResults.value)
  {
    NoSingleMatchFindsNoUser(users, cmd.email);
    assert CreateUserEffect(users, cmd, now) == CreationEffect(users, cmd, now);
    CreationRefused(users, cmd, now);
  }

  /**
   * With no single user found and a valid email and password, exactly one
   * user is appended: the command's email and password on a fresh record,
   * with the next identifier. A duplicate-email fault leads here too.
   */
  lemma NewUserCreated(users: seq<User>, cmd: CreateUserCommand, now: Time)
    requires PersistedTable(users)
    requires NoSingleMatch(users, cmd.email)
    requires CommandValid(cmd)
    ensures CreateUserEffect(users, cmd, now).0 == CreateUserResult(USER_CREATED, None)
    ensures var after := CreateUserEffect(users, cmd, now).1;
      && |after| == |users| + 1
      && after[..|users|] == users
      && after[|users|].email == cmd.email && after[|users|].password == cmd.password
      && after[|users|].id == Some(|users|)
      && !after[|users|].archived && !after[|users|].confirmed
      && after[|users|].lastEmailCheck == now
      && after[|users|].referal.None? && after[|users|].username.None?
      && after[|users|].firstName.None? && after[|users|].lastName.None?
      && PersistedTable(after)
  {
    NoSingleMatchFindsNoUser(users, cmd.email);
    assert CreateUserEffect(users, cmd, now) == CreationEffect(users, cmd, now);
    CreationSaves(users, cmd, now);
    var after := CreateUserEffect(users, cmd, now).1;
    assert after[..|users|] == users;
  }

  /**
   * Two stored users sharing an email do not stop a creation: the request
   * with a valid email and password stores a third.
   */
  lemma DuplicateEmailStillCreates(users: seq<User>, cmd: CreateUserCommand, now: Time, i: nat, j: nat)
    requires PersistedTable(users)
    requires i < j < |users| && EmailMatches(users[i], cmd.email) && EmailMatches(users[j], cmd.email)
    requires CommandValid(cmd)
    ensures CreateUserEffect(users, cmd, now).0.resultCode == USER_CREATED
    ensures |CreateUserEffect(users, cmd, now).1| == |users| + 1
  {
    NewUserCreated(users, cmd, now);
  }

  /** The user the signup request of the scenario below stores. */
  function SignedUp(now: Time): User {
    NewUser(now).(id := Some(0), email := Some("a@b.com"), password := Some("Abc123"))
  }

  /** On an empty store, "a@b.com" with "Abc123" creates that user. */
  lemma SignupCreates(now: Time)
    ensures CreateUserEffect([], CreateUserCommand(Some("a@b.com"), Some("Abc123")), now)
      == (CreateUserResult(USER_CREATED, None), [SignedUp(now)])
  {
    var signup := CreateUserCommand(Some("a@b.com"), Some("Abc123"));
    EmailExamples();
    PasswordExamples();
    assert CommandValid(signup);
    NewUserCreated([], signup, now);
  }

  /**
   * Then the same request is recognised, or is asked to confirm its email
   * when it comes eight days later, and a wrong password is told so.
   */
  lemma SignupRecognised(now: Time)
    ensures CreateUserEffect([SignedUp(now)], CreateUserCommand(Some("a@b.com"), Some("Abc123")), now).0.resultCode
      == EXISTS_GOOD_CREDS
    ensures CreateUserEffect([SignedUp(now)], CreateUserCommand(Some("a@b.com"), Some("Abc123")), now + 8 * MillisPerDay).0.resultCode
      == EXISTS_UNCONFIRMED_EMAIL_DUE
    ensures CreateUserEffect([SignedUp(now)], CreateUserCommand(Some("a@b.com"), Some("wrong1A")), now).0.resultCode
      == EXISTS_BAD_CREDS
  {
    LikeWithoutWildcardsIsEquality("a@b.com", "a@b.com");
    assert OnlyMatch([SignedUp(now)], Some("a@b.com"), 0);
    ExistingUserRightPassword([SignedUp(now)], CreateUserCommand(Some("a@b.com"), Some("Abc123")), now, 0);
    ExistingUserRightPassword([SignedUp(now)], CreateUserCommand(Some("a@b.com"), Some("Abc123")), now + 8 * MillisPerDay, 0);
    ExistingUserWrongPassword([SignedUp(now)], CreateUserCommand(Some("a@b.com"), Some("wrong1A")), now, 0);
  }

  /** And "short" on a new email fails validation on the password alone. */
  lemma SignupWeakPasswordRefused(now: Time)
    ensures CreateUserEffect([SignedUp(now)], CreateUserCommand(Some("x@y.com"), Some("short")), now)
      == (CreateUserResult(VALIDATION_FAILED, Some([ValidationResult("password", PatternMessage)])), [SignedUp(now)])
  {
    var other := CreateUserCommand(Some("x@y.com"), Some("short"));
    assert NoSingleMatch([SignedUp(now)], other.email) by {
      LikeWithoutWildcardsIsEquality("a@b.com", "x@y.com");
      assert !EmailMatches(SignedUp(now), other.email);
    }
    NoSingleMatchFindsNoUser([SignedUp(now)], other.email);
    assert CreateUserEffect([SignedUp(now)], other, now) == CreationEffect([SignedUp(now)], other, now);
    ShortPasswordRefused(now);
  }

  /** The validation part: "x@y.com" passes, "short" breaks the password pattern. */
  lemma ShortPasswordRefused(now: Time)
    ensures CreationEffect([SignedUp(now)], CreateUserCommand(Some("x@y.com"), Some("short")), now)
      == (CreateUserResult(VALIDATION_FAILED, Some([ValidationResult("password", PatternMessage)])), [SignedUp(now)])
  {
    var u := BuildUser(CreateUserCommand(Some("x@y.com"), Some("short")), now);
    OtherEmailExample();
    PasswordExamples();
    assert ValidateProperty(u, "email") == [];
    assert ValidateProperty(u, "password") == [ConstraintViolation("password", Pattern)];
    assert CreationViolations(u) == [ConstraintViolation("password", Pattern)];
    assert ValidationResultsOf(CreationViolations(u)) == [ValidationResult("password", PatternMessage)];
  }
}
