/**
 * The user entity (model/User.java): its fields and their defaults, and the
 * two bean-validation constraints it declares, on `email` and `password`.
 */
module Users {
  import opened Outcomes
  import opened Patterns

  /** Milliseconds since the epoch, as `java.util.Date.getTime()` gives them. */
  type Time = int

  /** The store-assigned identifier of a user. */
  type UserId = nat

  /**
   * A user record. Every reference-typed Java field may be null, hence the
   * Options; `archived`, `confirmed` and `lastEmailCheck` always hold a value
   * because their initialisers give them one. `referal` holds the inviting
   * user's identifier rather than the object.
   */
  datatype User = User(
    id: Option<UserId>,
    archived: bool,
    confirmed: bool,
    referal: Option<UserId>,
    username: Option<string>,
    email: Option<string>,
    lastEmailCheck: Time,
    firstName: Option<string>,
    lastName: Option<string>,
    password: Option<string>)

  /** `new User()` at time `now`: every field at its initial value. */
  function NewUser(now: Time): (u: User)
    ensures !u.archived && !u.confirmed
    ensures u.lastEmailCheck == now
    ensures u.id.None? && u.referal.None? && u.username.None? && u.email.None?
    ensures u.firstName.None? && u.lastName.None? && u.password.None?
  {
    User(None, false, false, None, None, None, now, None, None, None)
  }

  // ---------------------------------------------------------------------------
  // Bean validation of one property

  /** The two kinds of constraint User.java declares. */
  datatype Constraint = NotNull | Pattern

  /** A violated constraint, with the path of the property it is on. */
  datatype ConstraintViolation = ConstraintViolation(propertyPath: string, constraint: Constraint)

  /**
   * The violations of a property carrying `@NotNull` and `@Pattern`: a null
   * value violates only NotNull (a pattern constraint accepts null), a value
   * that does not match violates only Pattern.
   */
  function CheckNotNullPattern(name: string, value: Option<string>, matches: string -> bool): (vs: seq<ConstraintViolation>)
    ensures |vs| <= 1
    ensures forall k :: 0 <= k < |vs| ==> vs[k].propertyPath == name
    ensures vs == [] <==> value.Some? && matches(value.value)
    ensures value.None? ==> vs == [ConstraintViolation(name, NotNull)]
    ensures value.Some? && !matches(value.value) ==> vs == [ConstraintViolation(name, Pattern)]
  {
    match value
    case None => [ConstraintViolation(name, NotNull)]
    case Some(v) => if matches(v) then [] else [ConstraintViolation(name, Pattern)]
  }

  /**
   * `validator.validateProperty(u, property)`: only `email` and `password`
   * carry constraints; every other property validates without violation. The
   * user is only read.
   */
  function ValidateProperty(u: User, property: string): (vs: seq<ConstraintViolation>)
    ensures |vs| <= 1
    ensures forall k :: 0 <= k < |vs| ==> vs[k].propertyPath == property
    ensures property == "email" ==>
      (vs == [] <==> u.email.Some? && ValidEmail(u.email.value))
    ensures property == "password" ==>
      (vs == [] <==> u.password.Some? && ValidPassword(u.password.value))
    ensures property == "email" && u.email.None? ==> vs == [ConstraintViolation("email", NotNull)]
    ensures property == "email" && u.email.Some? && !ValidEmail(u.email.value) ==> vs == [ConstraintViolation("email", Pattern)]
    ensures property == "password" && u.password.None? ==> vs == [ConstraintViolation("password", NotNull)]
    ensures property == "password" && u.password.Some? && !ValidPassword(u.password.value) ==> vs == [ConstraintViolation("password", Pattern)]
    ensures property != "email" && property != "password" ==> vs == []
  {
    if property == "email" then
      var vs := CheckNotNullPattern("email", u.email, EmailPatternMatches);
      if u.email.Some? then EmailPatternMeaning(u.email.value); vs else vs
    else if property == "password" then
      var vs := CheckNotNullPattern("password", u.password, PasswordPatternMatches);
      if u.password.Some? then PasswordPatternMeaning(u.password.value); vs else vs
    else []
  }

  /** "a@b.com" is an acceptable email; "a@b.c", "a@b" and "a..b@c.com" are not. */
  lemma EmailExamples()
    ensures ValidEmail("a@b.com")
    ensures !ValidEmail("a@b.c")
    ensures !ValidEmail("a@b")
    ensures !ValidEmail("a..b@c.com")
  {
    EmailPatternExamples();
    EmailPatternMeaning("a@b.com");
    EmailPatternMeaning("a@b.c");
    EmailPatternMeaning("a@b");
    EmailPatternMeaning("a..b@c.com");
  }

  /** "x@y.com" is an acceptable email: local part "x", domain "y.com". */
  lemma OtherEmailExample()
    ensures ValidEmail("x@y.com")
  {
    var s := "x@y.com";
    assert s[..1] == "x" && s[2..] == "y.com" && "y.com"[..1] == "y";
    assert ValidDomain("y.com");
  }

  // ---------------------------------------------------------------------------
  // Records as the store keeps them

  /**
   * A user as it sits in the store at position `i`: the store assigned it the
   * identifier `i`, and the not-null columns hold values.
   */
  predicate Persisted(u: User, i: nat) {
    u.id == Some(i) && u.email.Some? && u.password.Some?
  }

  /** Every row of a user table is a persisted user. */
  predicate PersistedTable(users: seq<User>) {
    forall i :: 0 <= i < |users| ==> Persisted(users[i], i)
  }
}
