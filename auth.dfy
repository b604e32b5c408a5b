/**
 * Admin login over the admin_users table: an ordered chain of checks (400 missing
 * fields, 401 unknown account, 401 wrong password, 403 inactive account), then a
 * `last_login` stamp on the matched account and the account returned without its
 * password.
 */
module Auth {
  import opened Values
  import opened Tables

  /** A row of admin_users; `rest` holds the columns the login path does not read. */
  datatype AdminUser = AdminUser(
    user_id: string,
    email: Option<string>,
    password: Option<string>,
    role: Option<string>,
    status: Option<string>,
    last_login: Option<string>,
    rest: map<string, FieldValue>)

  /** An admin_users row as sent to the client: every column except `password`. */
  datatype PublicAdmin = PublicAdmin(
    user_id: string,
    email: Option<string>,
    role: Option<string>,
    status: Option<string>,
    last_login: Option<string>,
    rest: map<string, FieldValue>)

  const MissingFieldsMessage := "Email and password are required"
  const InvalidCredentialsMessage := "Invalid email or password"
  const InactiveAccountMessage := "Account is not active"

  /** `const { password: _, ...userWithoutPassword } = user`. */
  function WithoutPassword(u: AdminUser): (p: PublicAdmin)
    ensures WithPassword(p, u.password) == u
  {
    PublicAdmin(u.user_id, u.email, u.role, u.status, u.last_login, u.rest)
  }

  /** Puts a password back into a public record (the inverse of WithoutPassword). */
  function WithPassword(p: PublicAdmin, password: Option<string>): AdminUser {
    AdminUser(p.user_id, p.email, password, p.role, p.status, p.last_login, p.rest)
  }

  /** Two accounts give the same public record exactly when they differ at most in the password. */
  lemma WithoutPasswordDropsOnlyPassword(u: AdminUser, v: AdminUser)
    ensures WithoutPassword(u) == WithoutPassword(v) <==> u.(password := v.password) == v
  {
    if WithoutPassword(u) == WithoutPassword(v) {
      assert WithPassword(WithoutPassword(u), v.password) == v;
    }
  }

  /** The rows `.eq('email', email).eq('role', 'admin')` selects. */
  function AdminWithEmail(email: string): AdminUser -> bool {
    (u: AdminUser) => u.email == Some(email) && u.role == Some("admin")
  }

  /**
   * The login decision over the table: the matched stored row, or the failure answered.
   * `.single()` yields a row only when exactly one row matches; otherwise it reports an
   * error, which this handler answers as 401.
   */
  function Authenticate(users: seq<AdminUser>, email: Option<string>, password: Option<string>): (r: Result<AdminUser>)
    ensures !Truthy(email) || !Truthy(password) ==> r == Err(BadRequest(MissingFieldsMessage))
    ensures Truthy(email) && Truthy(password) ==> !(r.Err? && r.failure.BadRequest?)
    ensures r.Ok? <==>
              Truthy(email) && Truthy(password) &&
              Count(users, AdminWithEmail(email.value)) == 1 &&
              (exists i :: 0 <= i < |users| && AdminWithEmail(email.value)(users[i]) &&
                           users[i].password == password && users[i].status == Some("active"))
    ensures r.Ok? ==> r.value in users && r.value.email == email && r.value.role == Some("admin") &&
                      r.value.password == password && r.value.status == Some("active")
    ensures r.Err? && r.failure.Forbidden? ==>
              r.failure.message == InactiveAccountMessage &&
              exists u :: u in users && AdminWithEmail(email.value)(u) &&
                          u.password == password && u.status != Some("active")
    ensures r.Err? && !r.failure.Forbidden? && !r.failure.BadRequest? ==>
              r.failure == Unauthorized(InvalidCredentialsMessage)
  {
    if !Truthy(email) || !Truthy(password) then Err(BadRequest(MissingFieldsMessage))
    else
      var found := Filter(users, AdminWithEmail(email.value));
      if |found| != 1 then Err(Unauthorized(InvalidCredentialsMessage))
      else
        var u := found[0];
        if u.password != password then Err(Unauthorized(InvalidCredentialsMessage))
        else if u.status != Some("active") then Err(Forbidden(InactiveAccountMessage))
        else
          assert exists i :: 0 <= i < |users| && users[i] == u;
          Ok(u)
  }

  /** Without an admin row for the email (a missing row, or a non-admin role) the answer is 401. */
  lemma UnknownEmailIsUnauthorized(users: seq<AdminUser>, email: Option<string>, password: Option<string>)
    requires Truthy(email) && Truthy(password)
    requires forall j :: 0 <= j < |users| ==> !AdminWithEmail(email.value)(users[j])
    ensures Authenticate(users, email, password) == Err(Unauthorized(InvalidCredentialsMessage))
  {
    CountIsZero(users, AdminWithEmail(email.value));
  }

  /**
   * A wrong password is answered exactly as an unknown email: the same 401 as for the
   * table without that account.
   */
  lemma WrongPasswordLikeUnknownEmail(users: seq<AdminUser>, email: string, password: string, i: int)
    requires email != "" && password != ""
    requires 0 <= i < |users| && AdminWithEmail(email)(users[i])
    requires forall j :: 0 <= j < |users| && j != i ==> !AdminWithEmail(email)(users[j])
    requires users[i].password != Some(password)
    ensures Authenticate(users, Some(email), Some(password)) == Err(Unauthorized(InvalidCredentialsMessage))
    ensures Authenticate(users, Some(email), Some(password))
         == Authenticate(users[..i] + users[i + 1..], Some(email), Some(password))
  {
    var p := AdminWithEmail(email);
    CountOne(users, p, i);
    var found := Filter(users, p);
    assert found[0] in users && p(found[0]);
    assert found[0] == users[i];
    var others := users[..i] + users[i + 1..];
    assert forall j :: 0 <= j < |others| ==> !p(others[j]) by {
      forall j | 0 <= j < |others| ensures !p(others[j]) {
        if j < i { assert others[j] == users[j]; } else { assert others[j] == users[j + 1]; }
      }
    }
    CountIsZero(others, p);
  }

  /** The one admin row for the email, with the right password but not active, is answered 403. */
  lemma InactiveIsForbidden(users: seq<AdminUser>, email: Option<string>, password: Option<string>, u: AdminUser)
    requires Truthy(email) && Truthy(password)
    requires Count(users, AdminWithEmail(email.value)) == 1
    requires u in users && AdminWithEmail(email.value)(u)
    requires u.password == password && u.status != Some("active")
    ensures Authenticate(users, email, password) == Err(Forbidden(InactiveAccountMessage))
  {
    FilterOnly(users, AdminWithEmail(email.value), u);
  }

  /** The password check comes before the status check: a wrong password is never a 403. */
  lemma WrongPasswordIsNeverForbidden(users: seq<AdminUser>, email: Option<string>, password: Option<string>)
    requires Truthy(email) && Truthy(password)
    requires forall j :: 0 <= j < |users| && AdminWithEmail(email.value)(users[j]) ==> users[j].password != password
    ensures Authenticate(users, email, password) == Err(Unauthorized(InvalidCredentialsMessage))
  {
    var found := Filter(users, AdminWithEmail(email.value));
    if |found| == 1 {
      assert found[0] in users;
    }
  }

  /** The table after `.update({ last_login: now }).eq('user_id', id)`. */
  function StampLastLogin(users: seq<AdminUser>, id: string, now: string): (r: seq<AdminUser>)
    ensures |r| == |users|
    ensures forall i :: 0 <= i < |users| ==>
              r[i] == if users[i].user_id == id then users[i].(last_login := Some(now)) else users[i]
  {
    seq(|users|, i requires 0 <= i < |users| =>
      if users[i].user_id == id then users[i].(last_login := Some(now)) else users[i])
  }

  /** The admin_users table with the login handler over it. */
  class AdminStore {
    var users: seq<AdminUser>

    constructor (users: seq<AdminUser>)
      ensures this.users == users
    {
      this.users := users;
    }

    /**
     * `login`: on success the matched account's rows get `last_login := now` and the
     * account is returned as it was read (before the stamp) without its password; on
     * any failure the table is unchanged.
     */
    method Login(email: Option<string>, password: Option<string>, now: string) returns (r: Result<PublicAdmin>)
      modifies this
      ensures match Authenticate(old(users), email, password)
              case Err(f) => r == Err(f) && users == old(users)
              case Ok(u) => r == Ok(WithoutPassword(u)) && users == StampLastLogin(old(users), u.user_id, now)
    {
      var decision := Authenticate(users, email, password);
      match decision {
        case Err(f) =>
          r := Err(f);
        case Ok(u) =>
          users := StampLastLogin(users, u.user_id, now);
          r := Ok(WithoutPassword(u));
      }
    }
  }
}
