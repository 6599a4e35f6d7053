/**
 * The user record (apps/authentication/models.py): its display string,
 * the `full_name` fallback, and the model instance whose password and row
 * `set_password()` and `save()` update in place.
 */
module Accounts {
  import opened Wrappers
  import opened Text
  import opened Principals
  import opened Tables

  /**
   * A user row. `password` holds the stored hash, never the raw password;
   * `phone` and `address` are nullable.
   */
  datatype User = User(
    id: UserId,
    username: string,
    email: string,
    password: string,
    firstName: string,
    lastName: string,
    phone: Option<string>,
    address: Option<string>,
    isActive: bool,
    isStaff: bool,
    createdAt: int,
    updatedAt: int)

  function UserKey(u: User): nat { u.id }
  function Username(u: User): string { u.username }
  function Email(u: User): string { u.email }

  /** What the database guarantees of the users table: one row per id, usernames and emails unique. */
  predicate UsersValid(rows: seq<User>) {
    KeysUnique(rows, UserKey) && ColumnUnique(rows, Username) && ColumnUnique(rows, Email)
  }

  /** `str(user)` */
  function Display(u: User): string { u.username }

  /** Usernames are unique, so in a valid table a user's display string identifies the user. */
  lemma DisplayIdentifiesUser(rows: seq<User>, u: User, v: User)
    requires UsersValid(rows)
    requires u in rows && v in rows
    requires Display(u) == Display(v)
    ensures u == v
  {
    var i :| 0 <= i < |rows| && rows[i] == u;
    var j :| 0 <= j < |rows| && rows[j] == v;
    assert Username(rows[i]) == Username(rows[j]);
  }

  /** The string `full_name` strips: the first and last names joined by one space. */
  function JoinedName(u: User): string {
    u.firstName + " " + u.lastName
  }

  /**
   * `User.full_name`: the stripped joined name, or the username when both
   * names are blank (the stripped join is then empty).
   */
  function FullName(u: User): (r: string)
    ensures AllSpace(u.firstName) && AllSpace(u.lastName) ==> r == Display(u)
    ensures !(AllSpace(u.firstName) && AllSpace(u.lastName)) ==>
      r == Strip(JoinedName(u)) && r != [] && !IsSpace(r[0]) && !IsSpace(r[|r| - 1])
    ensures u.username != [] ==> r != []
  {
    AllSpaceConcat(u.firstName, " ");
    AllSpaceConcat(u.firstName + " ", u.lastName);
    var joined := Strip(JoinedName(u));
    if joined == [] then u.username else joined
  }

  /** With a first name only, the joining space is dropped: the full name is the stripped first name. */
  lemma FullNameFirstNameOnly(u: User)
    requires u.lastName == "" && !AllSpace(u.firstName)
    ensures FullName(u) == Strip(u.firstName)
  {
    assert JoinedName(u) == u.firstName + [' '];
    StripAppendSpace(u.firstName, ' ');
  }

  /** With a last name only, the leading space is dropped: the full name is the stripped last name. */
  lemma FullNameLastNameOnly(u: User)
    requires u.firstName == "" && !AllSpace(u.lastName)
    ensures FullName(u) == Strip(u.lastName)
  {
    assert JoinedName(u) == [' '] + u.lastName;
    StripPrependSpace(' ', u.lastName);
  }

  /** The fields of a user after `save()`: `updated_at` (auto_now) and, on the first save, `created_at` (auto_now_add). */
  function SavedUser(u: User, adding: bool, now: int): User {
    u.(createdAt := if adding then now else u.createdAt, updatedAt := now)
  }

  /** The database write behind `save()`: refused when the username or the email is taken by another row. */
  function PersistUser(rows: seq<User>, u: User): (r: Result<seq<User>, IntegrityError>)
    ensures r.Failure? <==> Clashes(rows, u, UserKey, Username) || Clashes(rows, u, UserKey, Email)
  {
    if Clashes(rows, u, UserKey, Username) then Failure(UniqueViolation("username"))
    else if Clashes(rows, u, UserKey, Email) then Failure(UniqueViolation("email"))
    else Success(Upsert(rows, u, UserKey))
  }

  /** A successful write keeps the table valid, stores `u`, and keeps every other row. */
  lemma PersistKeepsUsersValid(rows: seq<User>, u: User)
    requires UsersValid(rows)
    requires PersistUser(rows, u).Success?
    ensures UsersValid(PersistUser(rows, u).value)
    ensures u in PersistUser(rows, u).value
    ensures forall w :: w in rows && w.id != u.id ==> w in PersistUser(rows, u).value
    ensures forall w :: w in PersistUser(rows, u).value ==> w == u || (w in rows && w.id != u.id)
  {
    UpsertKeepsKeysUnique(rows, u, UserKey);
    UpsertKeepsColumnUnique(rows, u, UserKey, Username);
    UpsertKeepsColumnUnique(rows, u, UserKey, Email);
  }

  /**
   * Rewriting a stored user with its username and email unchanged never
   * breaks a unique column, whatever else the write changes.
   */
  lemma RewriteDoesNotClash(rows: seq<User>, u: User, v: User)
    requires UsersValid(rows) && u in rows
    requires v.id == u.id && v.username == u.username && v.email == u.email
    ensures PersistUser(rows, v).Success?
  {
    var i :| 0 <= i < |rows| && rows[i] == u;
    forall j | 0 <= j < |rows| && UserKey(rows[j]) != UserKey(v)
      ensures Username(rows[j]) != Username(v) && Email(rows[j]) != Email(v)
    {
      assert j != i;
    }
  }

  /** A Django model instance of `User`, whose fields `set_password()` and `save()` update in place. */
  class UserInstance {
    var fields: User
    /** `_state.adding`: the instance has not been written to the database yet. */
    var adding: bool

    constructor (u: User, adding: bool)
      ensures fields == u && this.adding == adding
    {
      fields := u;
      this.adding := adding;
    }

    /** `set_password()`: store the hash of the raw password; nothing is written to the database. */
    method SetPassword(raw: string, makePassword: string -> string)
      modifies this
      ensures fields == old(fields).(password := makePassword(raw))
      ensures adding == old(adding)
    {
      fields := fields.(password := makePassword(raw));
    }

    /** `save()`: set the timestamps, then write the row. */
    method Save(rows: seq<User>, now: int) returns (r: Result<seq<User>, IntegrityError>)
      modifies this
      ensures fields == SavedUser(old(fields), old(adding), now)
      ensures r == PersistUser(rows, fields)
      ensures adding == (old(adding) && r.Failure?)
    {
      if adding {
        fields := fields.(createdAt := now);
      }
      fields := fields.(updatedAt := now);
      r := PersistUser(rows, fields);
      if r.Success? {
        adding := false;
      }
    }
  }
}
