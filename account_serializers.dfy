/**
 * The account serializers (apps/authentication/serializers.py):
 * registration, login, the profile update's email check, and the password
 * change, each as DRF runs it: every field's own checks first, collected
 * into one error per field, then the serializer's object-level `validate`.
 */
module AccountSerializers {
  import opened Wrappers
  import opened Text
  import opened Principals
  import opened Tables
  import opened Accounts

  /** The validation messages a client can receive. */
  datatype Message =
    | FieldRequired
    | FieldBlank
    /** the unique validator DRF derives from a `unique=True` model column */
    | NotUnique
    /** the messages `validate_password` raised */
    | PasswordInvalid(reasons: seq<string>)
    | EmailTaken
    | PasswordsDiffer
    | MissingCredentials
    | BadCredentials
    | AccountDisabled
    | OldPasswordIncorrect
    | NewPasswordsDiffer

  /**
   * A required string field as DRF's `CharField` reads it: an absent value
   * is an error; the value is stripped, and one that is then empty is
   * refused unless the field allows blanks.
   */
  function TextField(raw: Option<string>, allowBlank: bool): (r: Result<string, Message>)
    ensures raw.None? ==> r == Failure(FieldRequired)
    ensures raw.Some? ==> (r.Failure? <==> !allowBlank && AllSpace(raw.value))
    ensures raw.Some? && r.Failure? ==> r.error == FieldBlank
    ensures r.Success? ==> r.value == Strip(raw.value) && (!allowBlank ==> r.value != [])
  {
    match raw
    case None => Failure(FieldRequired)
    case Some(s) => if !allowBlank && Strip(s) == [] then Failure(FieldBlank) else Success(Strip(s))
  }

  /** An optional, nullable string field that allows blanks: absent stays absent, null stays null, text is stripped. */
  function OptionalText(raw: Option<Option<string>>): Option<Option<string>> {
    match raw
    case None => None
    case Some(None) => Some(None)
    case Some(Some(s)) => Some(Some(Strip(s)))
  }

  /** Some stored user has the email `e`, compared exactly. */
  predicate EmailInUse(rows: seq<User>, e: string) {
    exists u :: u in rows && u.email == e
  }

  /** Some stored user other than `current` has the email `e`: `exclude(pk=user.pk)` excludes nobody for an anonymous user. */
  predicate EmailInUseByOther(rows: seq<User>, current: Requester, e: string) {
    exists u :: u in rows && u.email == e && !(current.SignedIn? && u.id == current.id)
  }

  predicate UsernameInUse(rows: seq<User>, name: string) {
    exists u :: u in rows && u.username == name
  }

  /**
   * Registration's `validate_email`: the email is lower-cased, and refused
   * when a stored user already has the lower-cased form.
   */
  function ValidateEmail(rows: seq<User>, value: string): (r: Result<string, Message>)
    ensures r.Failure? <==> EmailInUse(rows, Lower(value))
    ensures r.Failure? ==> r.error == EmailTaken
    ensures r.Success? ==> r.value == Lower(value) && forall u :: u in rows ==> u.email != r.value
  {
    if EmailInUse(rows, Lower(value)) then Failure(EmailTaken) else Success(Lower(value))
  }

  /** `UserUpdateSerializer.validate_email`: as at registration, but the requesting user's own row does not count. */
  function ValidateEmailExcluding(rows: seq<User>, current: Requester, value: string): (r: Result<string, Message>)
    ensures r.Failure? <==> EmailInUseByOther(rows, current, Lower(value))
    ensures r.Failure? ==> r.error == EmailTaken
    ensures r.Success? ==> r.value == Lower(value)
  {
    if EmailInUseByOther(rows, current, Lower(value)) then Failure(EmailTaken) else Success(Lower(value))
  }

  /** Both email checks compare lower-cased forms: emails that differ only in letter case are judged alike. */
  lemma ValidateEmailIgnoresCase(rows: seq<User>, current: Requester, a: string, b: string)
    requires Lower(a) == Lower(b)
    ensures ValidateEmail(rows, a) == ValidateEmail(rows, b)
    ensures ValidateEmailExcluding(rows, current, a) == ValidateEmailExcluding(rows, current, b)
  {
  }

  /** An accepted email is accepted again unchanged: its lower-cased form is itself. */
  lemma ValidateEmailIdempotent(rows: seq<User>, value: string)
    requires ValidateEmail(rows, value).Success?
    ensures ValidateEmail(rows, ValidateEmail(rows, value).value) == ValidateEmail(rows, value)
  {
    LowerIdempotent(value);
  }

  /** A user keeping (or re-casing) the email stored on their own row is accepted. */
  lemma OwnEmailAccepted(rows: seq<User>, me: User, isStaff: bool, value: string)
    requires UsersValid(rows) && me in rows
    requires Lower(value) == me.email
    ensures ValidateEmailExcluding(rows, SignedIn(me.id, isStaff), value) == Success(me.email)
  {
    var i :| 0 <= i < |rows| && rows[i] == me;
    forall w | w in rows && w.email == me.email ensures w.id == me.id {
      var j :| 0 <= j < |rows| && rows[j] == w;
      assert Email(rows[j]) == Email(rows[i]);
    }
  }

  /** Another user's email, in any letter case, is refused. */
  lemma OtherUsersEmailRejected(rows: seq<User>, current: Requester, other: User, value: string)
    requires other in rows && Lower(value) == other.email
    requires !(current.SignedIn? && other.id == current.id)
    ensures ValidateEmailExcluding(rows, current, value) == Failure(EmailTaken)
  {
  }

  /** The update check refuses only what registration would refuse, and is registration's check for an anonymous requester. */
  lemma ExcludingIsWeaker(rows: seq<User>, current: Requester, value: string)
    ensures ValidateEmailExcluding(rows, current, value).Failure? ==> ValidateEmail(rows, value).Failure?
    ensures ValidateEmail(rows, value).Success? ==> ValidateEmailExcluding(rows, current, value) == ValidateEmail(rows, value)
    ensures current.Anonymous? ==> ValidateEmailExcluding(rows, current, value) == ValidateEmail(rows, value)
  {
  }

  // ---------------------------------------------------------------- registration

  /** The data a client may send to register: `Meta.fields`; an absent field is `None`, and `phone` and `address` may be null. */
  datatype RegistrationInput = RegistrationInput(
    username: Option<string>,
    email: Option<string>,
    password: Option<string>,
    passwordConfirm: Option<string>,
    firstName: Option<string>,
    lastName: Option<string>,
    phone: Option<Option<string>>,
    address: Option<Option<string>>)

  datatype RegistrationField = UsernameField | EmailField | PasswordField | PasswordConfirmField
                             | FirstNameField | LastNameField | PhoneField | AddressField

  function RegistrationWireName(f: RegistrationField): string {
    match f
    case UsernameField => "username"
    case EmailField => "email"
    case PasswordField => "password"
    case PasswordConfirmField => "password_confirm"
    case FirstNameField => "first_name"
    case LastNameField => "last_name"
    case PhoneField => "phone"
    case AddressField => "address"
  }

  /** `validated_data` of a registration. `first_name` and `last_name` are required, so always present after validation. */
  datatype Registration = Registration(
    username: string,
    email: string,
    password: string,
    passwordConfirm: string,
    firstName: Option<string>,
    lastName: Option<string>,
    phone: Option<Option<string>>,
    address: Option<Option<string>>)

  function ErrorOf<T>(r: Result<T, Message>): Option<Message> {
    match r
    case Failure(e) => Some(e)
    case Success(_) => None
  }

  /** `username`: required, not blank, and not already taken. */
  function UsernameError(rows: seq<User>, d: RegistrationInput): Option<Message> {
    match TextField(d.username, false)
    case Failure(e) => Some(e)
    case Success(v) => if UsernameInUse(rows, v) then Some(NotUnique) else None
  }

  /** `email`: required, not blank, not stored exactly as sent, then `validate_email`. */
  function EmailError(rows: seq<User>, d: RegistrationInput): Option<Message> {
    match TextField(d.email, false)
    case Failure(e) => Some(e)
    case Success(v) => if EmailInUse(rows, v) then Some(NotUnique) else ErrorOf(ValidateEmail(rows, v))
  }

  /** `password`: required, not blank, and passed by the password validators. */
  function PasswordError(d: RegistrationInput, passwordProblems: string -> seq<string>): Option<Message> {
    match TextField(d.password, false)
    case Failure(e) => Some(e)
    case Success(v) => if passwordProblems(v) != [] then Some(PasswordInvalid(passwordProblems(v))) else None
  }

  /** The error each registration field reports, if any. */
  datatype RegistrationFieldErrors = RegistrationFieldErrors(
    username: Option<Message>,
    email: Option<Message>,
    password: Option<Message>,
    passwordConfirm: Option<Message>,
    firstName: Option<Message>,
    lastName: Option<Message>)

  /** The names are required but may be blank; `phone` and `address` accept any text, blank or null. */
  function FieldErrors(rows: seq<User>, d: RegistrationInput, passwordProblems: string -> seq<string>): RegistrationFieldErrors {
    RegistrationFieldErrors(
      UsernameError(rows, d), EmailError(rows, d), PasswordError(d, passwordProblems),
      ErrorOf(TextField(d.passwordConfirm, false)),
      ErrorOf(TextField(d.firstName, true)), ErrorOf(TextField(d.lastName, true)))
  }

  /** The field errors as the response reports them: one entry per failing field, under that field's key. */
  function ErrorMap(e: RegistrationFieldErrors): (r: map<RegistrationField, Message>)
    ensures UsernameField in r <==> e.username.Some?
    ensures EmailField in r <==> e.email.Some?
    ensures PasswordField in r <==> e.password.Some?
    ensures PasswordConfirmField in r <==> e.passwordConfirm.Some?
    ensures FirstNameField in r <==> e.firstName.Some?
    ensures LastNameField in r <==> e.lastName.Some?
    ensures UsernameField in r ==> r[UsernameField] == e.username.value
    ensures EmailField in r ==> r[EmailField] == e.email.value
    ensures PasswordField in r ==> r[PasswordField] == e.password.value
    ensures PasswordConfirmField in r ==> r[PasswordConfirmField] == e.passwordConfirm.value
    ensures FirstNameField in r ==> r[FirstNameField] == e.firstName.value
    ensures LastNameField in r ==> r[LastNameField] == e.lastName.value
    ensures PhoneField !in r && AddressField !in r
  {
    var m0: map<RegistrationField, Message> := map[];
    var m1 := if e.username.Some? then m0[UsernameField := e.username.value] else m0;
    var m2 := if e.email.Some? then m1[EmailField := e.email.value] else m1;
    var m3 := if e.password.Some? then m2[PasswordField := e.password.value] else m2;
    var m4 := if e.passwordConfirm.Some? then m3[PasswordConfirmField := e.passwordConfirm.value] else m3;
    var m5 := if e.firstName.Some? then m4[FirstNameField := e.firstName.value] else m4;
    if e.lastName.Some? then m5[LastNameField := e.lastName.value] else m5
  }

  /** The field errors, collected over every field (none stops the others), keyed by field. */
  function RegistrationErrors(rows: seq<User>, d: RegistrationInput, passwordProblems: string -> seq<string>)
    : map<RegistrationField, Message>
  {
    ErrorMap(FieldErrors(rows, d, passwordProblems))
  }

  /** Every field's checks accepted the registration input. */
  predicate RegistrationAccepted(rows: seq<User>, d: RegistrationInput, passwordProblems: string -> seq<string>) {
    FieldErrors(rows, d, passwordProblems) == RegistrationFieldErrors(None, None, None, None, None, None)
  }

  /** The validated data of an accepted input: every text stripped, the email also lower-cased. */
  function CleanedRegistration(d: RegistrationInput): Registration
    requires d.username.Some? && d.email.Some? && d.password.Some? && d.passwordConfirm.Some?
  {
    Registration(Strip(d.username.value), Lower(Strip(d.email.value)),
                 Strip(d.password.value), Strip(d.passwordConfirm.value),
                 if d.firstName.Some? then Some(Strip(d.firstName.value)) else None,
                 if d.lastName.Some? then Some(Strip(d.lastName.value)) else None,
                 OptionalText(d.phone), OptionalText(d.address))
  }

  /** Registration's `validate`: the two passwords must be equal; the error is keyed `password`. */
  function ValidateRegistration(v: Registration): (r: Result<Registration, map<RegistrationField, Message>>)
    ensures r.Failure? <==> v.password != v.passwordConfirm
    ensures r.Failure? ==> r.error == map[PasswordField := PasswordsDiffer]
    ensures r.Success? ==> r.value == v
  {
    if v.password != v.passwordConfirm then Failure(map[PasswordField := PasswordsDiffer]) else Success(v)
  }

  /**
   * `is_valid()` for a registration: the field errors if there are any
   * (then `validate` does not run), else `validate`'s verdict on the
   * validated data.
   */
  function RegistrationIsValid(rows: seq<User>, d: RegistrationInput, passwordProblems: string -> seq<string>)
    : (r: Result<Registration, map<RegistrationField, Message>>)
    ensures !RegistrationAccepted(rows, d, passwordProblems) ==>
      r.Failure? && r.error == RegistrationErrors(rows, d, passwordProblems) && r.error != map[]
    ensures RegistrationAccepted(rows, d, passwordProblems) ==>
      r == ValidateRegistration(CleanedRegistration(d))
  {
    if !RegistrationAccepted(rows, d, passwordProblems) then
      var e := FieldErrors(rows, d, passwordProblems);
      var errors := ErrorMap(e);
      assert errors != map[] by {
        if e.username.Some? { assert UsernameField in errors; }
        else if e.email.Some? { assert EmailField in errors; }
        else if e.password.Some? { assert PasswordField in errors; }
        else if e.passwordConfirm.Some? { assert PasswordConfirmField in errors; }
        else if e.firstName.Some? { assert FirstNameField in errors; }
        else { assert LastNameField in errors; }
      }
      Failure(errors)
    else
      ValidateRegistration(CleanedRegistration(d))
  }

  /** What an accepted registration guarantees about its validated data. */
  lemma RegistrationAcceptedFields(rows: seq<User>, d: RegistrationInput, passwordProblems: string -> seq<string>)
    requires RegistrationIsValid(rows, d, passwordProblems).Success?
    ensures var v := RegistrationIsValid(rows, d, passwordProblems).value;
      && v.username != [] && v.username == Strip(d.username.value) && !UsernameInUse(rows, v.username)
      && v.email == Lower(Strip(d.email.value)) && !EmailInUse(rows, v.email)
      && v.password == v.passwordConfirm && v.password != [] && passwordProblems(v.password) == []
      && v.firstName.Some? && v.lastName.Some?
  {
    assert RegistrationAccepted(rows, d, passwordProblems);
    assert TextField(d.email, false).Success?;
    assert ValidateEmail(rows, Strip(d.email.value)).Success?;
  }

  /**
   * Different passwords never register. When every field is otherwise
   * acceptable the error is `validate`'s, keyed `password`; otherwise the
   * field errors are reported and `validate` does not run.
   */
  lemma PasswordMismatchRejected(rows: seq<User>, d: RegistrationInput, passwordProblems: string -> seq<string>)
    requires d.password.Some? && d.passwordConfirm.Some?
    requires Strip(d.password.value) != Strip(d.passwordConfirm.value)
    ensures RegistrationIsValid(rows, d, passwordProblems).Failure?
    ensures RegistrationAccepted(rows, d, passwordProblems) ==>
      RegistrationIsValid(rows, d, passwordProblems).error == map[PasswordField := PasswordsDiffer]
  {
  }

  /** An email some user already has, in any letter case, never registers; the error is on the `email` field. */
  lemma TakenEmailRejected(rows: seq<User>, d: RegistrationInput, passwordProblems: string -> seq<string>, other: User)
    requires d.email.Some? && other in rows && other.email == Lower(Strip(d.email.value))
    ensures RegistrationIsValid(rows, d, passwordProblems).Failure?
    ensures EmailField in RegistrationIsValid(rows, d, passwordProblems).error
  {
    assert EmailError(rows, d).Some?;
  }

  /**
   * The user `create` builds: `password_confirm` is dropped, the password
   * is stored hashed, a missing first or last name, phone or address
   * becomes "", and the user is active and not staff.
   */
  function NewUser(v: Registration, id: UserId, makePassword: string -> string): User {
    User(id, v.username, v.email, makePassword(v.password),
         v.firstName.GetOr(""), v.lastName.GetOr(""),
         v.phone.GetOr(Some("")), v.address.GetOr(Some("")),
         true, false, 0, 0)
  }

  /**
   * `create`: `create_user` builds the user and saves it. The write can
   * only be refused by the unique username or email column; a stored user
   * has the given id, the hashed password, is active and is not staff.
   */
  function CreateResult(v: Registration, rows: seq<User>, id: UserId, makePassword: string -> string, now: int)
    : (r: Result<(seq<User>, User), IntegrityError>)
    ensures r.Failure? ==> r.error in {UniqueViolation("username"), UniqueViolation("email")}
    ensures r.Success? ==> r.value.1 in r.value.0 && r.value.1.id == id
    ensures r.Success? ==> r.value.1.password == makePassword(v.password) && r.value.1.isActive && !r.value.1.isStaff
  {
    var saved := SavedUser(NewUser(v, id, makePassword), true, now);
    match PersistUser(rows, saved)
    case Failure(e) => Failure(e)
    case Success(stored) => Success((stored, saved))
  }

  /** `UserRegistrationSerializer.create` */
  method Create(v: Registration, rows: seq<User>, id: UserId, makePassword: string -> string, now: int)
    returns (r: Result<(seq<User>, User), IntegrityError>)
    ensures r == CreateResult(v, rows, id, makePassword, now)
  {
    var instance := new UserInstance(
      User(id, v.username, v.email, "", v.firstName.GetOr(""), v.lastName.GetOr(""),
           v.phone.GetOr(Some("")), v.address.GetOr(Some("")), true, false, 0, 0), true);
    instance.SetPassword(v.password, makePassword);
    var written := instance.Save(rows, now);
    match written
    case Failure(e) => r := Failure(e);
    case Success(stored) => r := Success((stored, instance.fields));
  }

  /** `password_confirm` has no influence on what `create` stores. */
  lemma CreateIgnoresConfirmation(v: Registration, other: string, rows: seq<User>, id: UserId, makePassword: string -> string, now: int)
    ensures CreateResult(v.(passwordConfirm := other), rows, id, makePassword, now) == CreateResult(v, rows, id, makePassword, now)
  {
  }

  /** A created user carries the sent fields, the defaults for those left out, and the hashed password. */
  lemma CreateSetsDefaults(v: Registration, rows: seq<User>, id: UserId, makePassword: string -> string, now: int)
    requires CreateResult(v, rows, id, makePassword, now).Success?
    ensures var u := CreateResult(v, rows, id, makePassword, now).value.1;
      && u.id == id && u.username == v.username && u.email == v.email
      && u.password == makePassword(v.password)
      && (v.firstName.None? ==> u.firstName == "") && (v.lastName.None? ==> u.lastName == "")
      && (v.phone.None? ==> u.phone == Some("")) && (v.phone.Some? ==> u.phone == v.phone.value)
      && (v.address.None? ==> u.address == Some("")) && (v.address.Some? ==> u.address == v.address.value)
      && u.isActive && !u.isStaff && u.createdAt == now && u.updatedAt == now
  {
  }

  /** A created user is stored and the table stays valid. */
  lemma CreateKeepsUsersValid(v: Registration, rows: seq<User>, id: UserId, makePassword: string -> string, now: int)
    requires UsersValid(rows)
    requires CreateResult(v, rows, id, makePassword, now).Success?
    ensures UsersValid(CreateResult(v, rows, id, makePassword, now).value.0)
    ensures CreateResult(v, rows, id, makePassword, now).value.1 in CreateResult(v, rows, id, makePassword, now).value.0
    ensures forall w :: w in rows && w.id != id ==> w in CreateResult(v, rows, id, makePassword, now).value.0
  {
    PersistKeepsUsersValid(rows, SavedUser(NewUser(v, id, makePassword), true, now));
  }

  /**
   * An accepted registration with a fresh id is stored: the checks on the
   * username and the email leave nothing for the database to refuse.
   */
  lemma AcceptedRegistrationIsStored(rows: seq<User>, d: RegistrationInput, passwordProblems: string -> seq<string>,
                                     id: UserId, makePassword: string -> string, now: int)
    requires RegistrationIsValid(rows, d, passwordProblems).Success?
    requires forall u :: u in rows ==> u.id != id
    ensures CreateResult(RegistrationIsValid(rows, d, passwordProblems).value, rows, id, makePassword, now).Success?
  {
    var v := RegistrationIsValid(rows, d, passwordProblems).value;
    RegistrationAcceptedFields(rows, d, passwordProblems);
    FreeUserIsStored(rows, v, id, makePassword, now);
  }

  /** Validated data whose username and email no stored user has, written under a fresh id, is stored. */
  lemma FreeUserIsStored(rows: seq<User>, v: Registration, id: UserId, makePassword: string -> string, now: int)
    requires !UsernameInUse(rows, v.username) && !EmailInUse(rows, v.email)
    requires forall u :: u in rows ==> u.id != id
    ensures CreateResult(v, rows, id, makePassword, now).Success?
  {
    var saved := SavedUser(NewUser(v, id, makePassword), true, now);
    forall i | 0 <= i < |rows| ensures Username(rows[i]) != Username(saved) && Email(rows[i]) != Email(saved) {
      assert rows[i] in rows;
    }
    assert PersistUser(rows, saved).Success?;
  }

  // ---------------------------------------------------------------- login

  datatype LoginInput = LoginInput(username: Option<string>, password: Option<string>)

  /** The error keys of a login: its two fields, and `non_field_errors` for what `validate` raises. */
  datatype LoginField = LoginUsernameField | LoginPasswordField | NonFieldErrors

  /** The attributes `validate` receives; it adds `user`. */
  datatype LoginAttrs = LoginAttrs(username: Option<string>, password: Option<string>, user: Option<User>)

  /** Python's truth value of an optional string: present and non-empty. */
  predicate Given(s: Option<string>) {
    s.Some? && s.value != ""
  }

  /**
   * `UserLoginSerializer.validate`: both credentials must be given, must
   * authenticate, and the user must be active; only then is `user` set.
   * `authenticate` is the framework's, given as a parameter.
   */
  function LoginValidate(attrs: LoginAttrs, authenticate: (string, string) -> Option<User>)
    : (r: Result<LoginAttrs, Message>)
    ensures !(Given(attrs.username) && Given(attrs.password)) ==> r == Failure(MissingCredentials)
    ensures Given(attrs.username) && Given(attrs.password) ==>
      var found := authenticate(attrs.username.value, attrs.password.value);
      && (found.None? ==> r == Failure(BadCredentials))
      && (found.Some? && !found.value.isActive ==> r == Failure(AccountDisabled))
      && (found.Some? && found.value.isActive ==> r == Success(attrs.(user := found)))
    ensures r.Success? ==> r.value.user.Some? && r.value.user.value.isActive
  {
    if Given(attrs.username) && Given(attrs.password) then
      var found := authenticate(attrs.username.value, attrs.password.value);
      if found.None? then Failure(BadCredentials)
      else if !found.value.isActive then Failure(AccountDisabled)
      else Success(attrs.(user := found))
    else
      Failure(MissingCredentials)
  }

  /** The field errors of a login: both fields are required and not blank. */
  function LoginErrors(d: LoginInput): (r: map<LoginField, Message>)
    ensures LoginUsernameField in r <==> TextField(d.username, false).Failure?
    ensures LoginPasswordField in r <==> TextField(d.password, false).Failure?
    ensures LoginUsernameField in r ==> r[LoginUsernameField] == TextField(d.username, false).error
    ensures LoginPasswordField in r ==> r[LoginPasswordField] == TextField(d.password, false).error
    ensures NonFieldErrors !in r
  {
    var username, password := ErrorOf(TextField(d.username, false)), ErrorOf(TextField(d.password, false));
    var none: map<LoginField, Message> := map[];
    var withUsername := if username.Some? then none[LoginUsernameField := username.value] else none;
    if password.Some? then withUsername[LoginPasswordField := password.value] else withUsername
  }

  /** `validate`'s verdict as `is_valid()` reports it: what `validate` raises goes under `non_field_errors`. */
  function AsNonFieldError(r: Result<LoginAttrs, Message>): Result<LoginAttrs, map<LoginField, Message>> {
    match r
    case Failure(e) => Failure(map[NonFieldErrors := e])
    case Success(attrs) => Success(attrs)
  }

  /** `is_valid()` for a login: the field errors, else `validate` on the stripped credentials. */
  function Login(d: LoginInput, authenticate: (string, string) -> Option<User>)
    : (r: Result<LoginAttrs, map<LoginField, Message>>)
    ensures r.Failure? ==> r.error != map[]
  {
    var errors := LoginErrors(d);
    if errors != map[] then Failure(errors)
    else
      assert LoginUsernameField !in errors && LoginPasswordField !in errors;
      AsNonFieldError(LoginValidate(LoginAttrs(Some(Strip(d.username.value)), Some(Strip(d.password.value)), None), authenticate))
  }

  /**
   * A login succeeds exactly when both credentials are non-blank and
   * authenticate (once stripped) as an active user, who is then the
   * `user` attribute. Blank or missing credentials are reported on their
   * fields, so `validate`'s "Must include" branch is never reached
   * through `is_valid()`.
   */
  lemma LoginOutcomes(d: LoginInput, authenticate: (string, string) -> Option<User>)
    ensures Login(d, authenticate).Success? <==>
      d.username.Some? && d.password.Some? && !AllSpace(d.username.value) && !AllSpace(d.password.value)
      && authenticate(Strip(d.username.value), Strip(d.password.value)).Some?
      && authenticate(Strip(d.username.value), Strip(d.password.value)).value.isActive
    ensures Login(d, authenticate).Success? ==>
      Login(d, authenticate).value.user == authenticate(Strip(d.username.value), Strip(d.password.value))
    ensures d.username.None? || d.password.None? || AllSpace(d.username.value) || AllSpace(d.password.value) ==>
      Login(d, authenticate) == Failure(LoginErrors(d))
    ensures Login(d, authenticate).Failure? ==>
      NonFieldErrors !in Login(d, authenticate).error
      || Login(d, authenticate).error[NonFieldErrors] in {BadCredentials, AccountDisabled}
  {
    if LoginErrors(d) == map[] {
      assert TextField(d.username, false).Success? && TextField(d.password, false).Success?;
    }
  }

  // ---------------------------------------------------------------- password change

  datatype PasswordChangeInput = PasswordChangeInput(oldPassword: Option<string>, newPassword: Option<string>,
                                                     newPasswordConfirm: Option<string>)

  datatype PasswordChangeField = OldPasswordField | NewPasswordField | NewPasswordConfirmField

  /** `validated_data` of a password change. */
  datatype PasswordChange = PasswordChange(oldPassword: string, newPassword: string, newPasswordConfirm: string)

  /**
   * `validate_old_password`: the value must be the requesting user's
   * current password; `checkPassword(raw, hash)` is the framework's hash
   * check, given as a parameter.
   */
  function ValidateOldPassword(user: User, value: string, checkPassword: (string, string) -> bool)
    : (r: Result<string, Message>)
    ensures r.Failure? <==> !checkPassword(value, user.password)
    ensures r.Failure? ==> r.error == OldPasswordIncorrect
    ensures r.Success? ==> r.value == value
  {
    if !checkPassword(value, user.password) then Failure(OldPasswordIncorrect) else Success(value)
  }

  function OldPasswordError(user: User, d: PasswordChangeInput, checkPassword: (string, string) -> bool): Option<Message> {
    match TextField(d.oldPassword, false)
    case Failure(e) => Some(e)
    case Success(v) => ErrorOf(ValidateOldPassword(user, v, checkPassword))
  }

  function NewPasswordError(d: PasswordChangeInput, passwordProblems: string -> seq<string>): Option<Message> {
    match TextField(d.newPassword, false)
    case Failure(e) => Some(e)
    case Success(v) => if passwordProblems(v) != [] then Some(PasswordInvalid(passwordProblems(v))) else None
  }

  /** The field errors of a password change, keyed by field. */
  function PasswordChangeErrors(user: User, d: PasswordChangeInput, checkPassword: (string, string) -> bool,
                                passwordProblems: string -> seq<string>): (r: map<PasswordChangeField, Message>)
    ensures OldPasswordField in r <==> OldPasswordError(user, d, checkPassword).Some?
    ensures NewPasswordField in r <==> NewPasswordError(d, passwordProblems).Some?
    ensures NewPasswordConfirmField in r <==> TextField(d.newPasswordConfirm, false).Failure?
    ensures OldPasswordField in r ==> r[OldPasswordField] == OldPasswordError(user, d, checkPassword).value
    ensures NewPasswordField in r ==> r[NewPasswordField] == NewPasswordError(d, passwordProblems).value
    ensures NewPasswordConfirmField in r ==> r[NewPasswordConfirmField] == TextField(d.newPasswordConfirm, false).error
  {
    var current, chosen, confirm := OldPasswordError(user, d, checkPassword), NewPasswordError(d, passwordProblems),
                                    ErrorOf(TextField(d.newPasswordConfirm, false));
    var none: map<PasswordChangeField, Message> := map[];
    var withCurrent := if current.Some? then none[OldPasswordField := current.value] else none;
    var withChosen := if chosen.Some? then withCurrent[NewPasswordField := chosen.value] else withCurrent;
    if confirm.Some? then withChosen[NewPasswordConfirmField := confirm.value] else withChosen
  }

  /**
   * `is_valid()` for a password change: the field errors if there are
   * any, else `validate`, which refuses different new passwords with an
   * error keyed `new_password`.
   */
  function PasswordChangeIsValid(user: User, d: PasswordChangeInput, checkPassword: (string, string) -> bool,
                                 passwordProblems: string -> seq<string>)
    : (r: Result<PasswordChange, map<PasswordChangeField, Message>>)
    ensures r.Failure? ==> r.error != map[]
    ensures r.Success? ==>
      && d.oldPassword.Some? && checkPassword(Strip(d.oldPassword.value), user.password)
      && r.value.newPassword == r.value.newPasswordConfirm
      && r.value.newPassword != [] && passwordProblems(r.value.newPassword) == []
    ensures r.Success? ==> d.newPassword.Some? && r.value.newPassword == Strip(d.newPassword.value)
    ensures r.Success? <==>
      && PasswordChangeErrors(user, d, checkPassword, passwordProblems) == map[]
      && d.newPassword.Some? && d.newPasswordConfirm.Some?
      && Strip(d.newPassword.value) == Strip(d.newPasswordConfirm.value)
    ensures PasswordChangeErrors(user, d, checkPassword, passwordProblems) != map[] ==>
      r == Failure(PasswordChangeErrors(user, d, checkPassword, passwordProblems))
    ensures PasswordChangeErrors(user, d, checkPassword, passwordProblems) == map[] && r.Failure? ==>
      r.error == map[NewPasswordField := NewPasswordsDiffer]
  {
    var errors := PasswordChangeErrors(user, d, checkPassword, passwordProblems);
    if errors != map[] then Failure(errors)
    else
      assert TextField(d.oldPassword, false).Success?;
      var v := PasswordChange(Strip(d.oldPassword.value), Strip(d.newPassword.value), Strip(d.newPasswordConfirm.value));
      if v.newPassword != v.newPasswordConfirm then Failure(map[NewPasswordField := NewPasswordsDiffer])
      else Success(v)
  }

  /** A wrong old password never changes the password; the error is on `old_password`. */
  lemma WrongOldPasswordRejected(user: User, d: PasswordChangeInput, checkPassword: (string, string) -> bool,
                                 passwordProblems: string -> seq<string>)
    requires d.oldPassword.Some? && !checkPassword(Strip(d.oldPassword.value), user.password)
    ensures PasswordChangeIsValid(user, d, checkPassword, passwordProblems).Failure?
    ensures PasswordChangeIsValid(user, d, checkPassword, passwordProblems).error[OldPasswordField]
         in {FieldBlank, OldPasswordIncorrect}
  {
    assert OldPasswordError(user, d, checkPassword).Some?;
  }

  /** Different new passwords never change the password; once every field passes, the error is keyed `new_password`. */
  lemma NewPasswordMismatchRejected(user: User, d: PasswordChangeInput, checkPassword: (string, string) -> bool,
                                    passwordProblems: string -> seq<string>)
    requires d.newPassword.Some? && d.newPasswordConfirm.Some?
    requires Strip(d.newPassword.value) != Strip(d.newPasswordConfirm.value)
    ensures PasswordChangeIsValid(user, d, checkPassword, passwordProblems).Failure?
    ensures PasswordChangeErrors(user, d, checkPassword, passwordProblems) == map[] ==>
      PasswordChangeIsValid(user, d, checkPassword, passwordProblems).error == map[NewPasswordField := NewPasswordsDiffer]
  {
  }

  /**
   * `ChangePasswordSerializer.save`: set the request user's password to
   * the new one, hashed, and save the user.
   */
  method SavePasswordChange(instance: UserInstance, v: PasswordChange, rows: seq<User>,
                            makePassword: string -> string, now: int)
    returns (r: Result<seq<User>, IntegrityError>)
    requires !instance.adding
    modifies instance
    ensures instance.fields == SavedUser(old(instance.fields).(password := makePassword(v.newPassword)), false, now)
    ensures r == PersistUser(rows, instance.fields)
    ensures !instance.adding
  {
    instance.SetPassword(v.newPassword, makePassword);
    r := instance.Save(rows, now);
  }

  /**
   * What the password change stores: only the password hash and
   * `updated_at` differ from the stored user, and the write cannot be
   * refused. When the hash function and the check agree, the new password
   * is the one that now checks.
   */
  lemma PasswordChangeStored(rows: seq<User>, u: User, newPassword: string, makePassword: string -> string,
                             checkPassword: (string, string) -> bool, now: int)
    requires UsersValid(rows) && u in rows
    ensures var saved := SavedUser(u.(password := makePassword(newPassword)), false, now);
      && PersistUser(rows, saved).Success?
      && saved == u.(password := makePassword(newPassword), updatedAt := now)
      && ((forall raw :: checkPassword(raw, makePassword(raw))) ==> checkPassword(newPassword, saved.password))
      && UsersValid(PersistUser(rows, saved).value) && saved in PersistUser(rows, saved).value
  {
    var saved := SavedUser(u.(password := makePassword(newPassword)), false, now);
    RewriteDoesNotClash(rows, u, saved);
    PersistKeepsUsersValid(rows, saved);
  }
}
