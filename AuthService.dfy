/** Registration, login and refresh-token reissue as decisions over the user table,
    with the hashing and signing libraries as parameters. Registration inserts one row;
    login and refresh only read. */
module AuthService {
  import opened Common
  import opened Crypto

  /** A row of the Users table (`OUTPUT INSERTED.*` / the login SELECT). `pwd` and
      `salt` are nullable columns; `createdAt`/`updatedAt` are opaque clock values. */
  datatype UserRow = UserRow(
    id: int,
    name: string,
    email: string,
    pwd: Option<string>,
    salt: Option<string>,
    pathImageBanner: Option<string>,
    pathImageIcon: Option<string>,
    createdAt: int,
    updatedAt: int)

  /** The errors the three operations throw. */
  datatype AuthError =
    | SecretsMissing
    | EmailExists
    | CredentialsMissing
    | UserNotFound
    | StoredPasswordMissing
    | InvalidPassword
    | InvalidRefreshToken

  function ErrorMessage(e: AuthError): string
  {
    match e
    case SecretsMissing => "JWT_SECRET or JWT_REFRESH_SECRET is not defined"
    case EmailExists => "Email already exists"
    case CredentialsMissing => "Email and password are required"
    case UserNotFound => "User not found"
    case StoredPasswordMissing => "Stored password is missing"
    case InvalidPassword => "Invalid password"
    case InvalidRefreshToken => "Invalid refresh token"
  }

  datatype Result<T> = Ok(value: T) | Err(error: AuthError)

  /** What register and login return: the user row and a fresh token pair. */
  datatype Session = Session(user: UserRow, accessToken: string, refreshToken: string)

  /** `SELECT ... WHERE Email = @email` finds at least one row. */
  predicate EmailTaken(users: seq<UserRow>, email: string)
  {
    exists u :: u in users && u.email == email
  }

  /** `recordset[0]` of the lookup by email: the first row with that email. */
  function FindByEmail(users: seq<UserRow>, email: string): (r: Option<UserRow>)
    ensures r.None? <==> !EmailTaken(users, email)
    ensures r.Some? ==> r.value in users && r.value.email == email
  {
    if users == [] then None
    else if users[0].email == email then Some(users[0])
    else FindByEmail(users[1..], email)
  }

  /** The payload `{ userId: user.id, email: user.email }`. */
  function ClaimsOf(user: UserRow): Claims
  {
    Claims(user.id, user.email)
  }

  /** The token pair over a user's claims: the access token under JWT_SECRET for two
      days, the refresh token under JWT_REFRESH_SECRET for the configured lifetime. */
  function IssueSession(env: Env, o: Oracles, user: UserRow): Session
  {
    Session(user,
            o.sign(ClaimsOf(user), env.jwtSecret, AccessExpiry),
            o.sign(ClaimsOf(user), env.jwtRefreshSecret, RefreshExpiry(env)))
  }

  /** The row INSERT creates: the next identity value, the given name and email, the
      salted hash and the salt, no images, both timestamps from the clock. */
  function NewUser(id: int, name: string, email: string, password: string, salt: string,
                   now: int, o: Oracles): UserRow
  {
    UserRow(id, name, email, Some(o.hash(password, salt)), Some(salt), None, None, now, now)
  }

  /** Login: secrets, then non-empty credentials, then the lookup, then the stored
      hash, then the comparison; on success a token pair over the stored row. */
  function Login(users: seq<UserRow>, env: Env, o: Oracles, email: string, password: string): (r: Result<Session>)
    ensures r.Ok? ==> r.value == IssueSession(env, o, r.value.user) && r.value.user.email == email
    ensures r.Err? ==> r.error != EmailExists && r.error != InvalidRefreshToken
  {
    if !SecretsConfigured(env) then Err(SecretsMissing)
    else if email == "" || password == "" then Err(CredentialsMissing)
    else match FindByEmail(users, email)
      case None => Err(UserNotFound)
      case Some(user) =>
        if user.pwd.None? || user.pwd.value == "" then Err(StoredPasswordMissing)
        else if !o.compare(password, user.pwd.value) then Err(InvalidPassword)
        else Ok(IssueSession(env, o, user))
  }

  /** Refresh: verify under JWT_REFRESH_SECRET, require a truthy userId and email, and
      sign a new access token over those two claims. Every failure after the secrets
      check is the one error InvalidRefreshToken. */
  function Refresh(env: Env, o: Oracles, refreshToken: string): (r: Result<string>)
    ensures r.Ok? ==> SecretsConfigured(env) && IdentityOf(o.verify(refreshToken, env.jwtRefreshSecret)).Some?
    ensures r.Err? ==> r.error == SecretsMissing || r.error == InvalidRefreshToken
  {
    if !SecretsConfigured(env) then Err(SecretsMissing)
    else match IdentityOf(o.verify(refreshToken, env.jwtRefreshSecret))
      case None => Err(InvalidRefreshToken)
      case Some(c) => Ok(o.sign(c, env.jwtSecret, AccessExpiry))
  }

  /** Missing secrets fail every operation before the table is read: the outcome is the
      same whatever the table holds. */
  lemma SecretsCheckedFirst(users1: seq<UserRow>, users2: seq<UserRow>, env: Env, o: Oracles,
                            email: string, password: string, token: string)
    requires !SecretsConfigured(env)
    ensures Login(users1, env, o, email, password) == Login(users2, env, o, email, password) == Err(SecretsMissing)
    ensures Refresh(env, o, token) == Err(SecretsMissing)
  {
  }

  /** The order of the login errors: each condition is reported only when every earlier
      one has passed. */
  lemma LoginErrorOrder(users: seq<UserRow>, env: Env, o: Oracles, email: string, password: string)
    requires SecretsConfigured(env)
    ensures var r := Login(users, env, o, email, password);
      && (email == "" || password == "" ==> r == Err(CredentialsMissing))
      && (email != "" && password != "" && !EmailTaken(users, email) ==> r == Err(UserNotFound))
      && (email != "" && password != "" && EmailTaken(users, email) ==>
            r != Err(UserNotFound) && r != Err(CredentialsMissing))
      && (r == Err(InvalidPassword) ==>
            exists u :: u in users && u.email == email && u.pwd.Some? && u.pwd.value != ""
                     && !o.compare(password, u.pwd.value))
  {
  }

  /** The last two login errors are decided on the row the lookup returned: a missing
      or empty stored hash, and only then a password the hash does not match. */
  lemma LoginFoundRowErrors(users: seq<UserRow>, env: Env, o: Oracles, email: string, password: string, u: UserRow)
    requires SecretsConfigured(env)
    requires email != "" && password != ""
    requires FindByEmail(users, email) == Some(u)
    ensures var r := Login(users, env, o, email, password);
      && (u.pwd.None? || u.pwd.value == "" ==> r == Err(StoredPasswordMissing))
      && (u.pwd.Some? && u.pwd.value != "" ==>
            && (r == Err(InvalidPassword) <==> !o.compare(password, u.pwd.value))
            && (r.Ok? <==> o.compare(password, u.pwd.value)))
  {
  }

  /** A successful login is for a stored row with the given email and a non-empty
      stored hash that the password matches, and its tokens carry that row's id and
      email. An email absent from the table never logs in. */
  lemma LoginSucceedsOnlyForStoredUser(users: seq<UserRow>, env: Env, o: Oracles,
                                                         email: string, password: string)
    ensures var r := Login(users, env, o, email, password);
      && (r.Ok? ==>
            && r.value.user in users && r.value.user.email == email
            && r.value.user.pwd.Some? && r.value.user.pwd.value != ""
            && o.compare(password, r.value.user.pwd.value)
            && r.value.accessToken == o.sign(Claims(r.value.user.id, email), env.jwtSecret, AccessExpiry)
            && r.value.refreshToken == o.sign(Claims(r.value.user.id, email), env.jwtRefreshSecret, RefreshExpiry(env)))
      && (!EmailTaken(users, email) ==> r.Err?)
  {
  }

  /** Refresh keeps the claims: a refresh token that verifies to claims c yields an
      access token signed with JWT_SECRET over exactly c when c's userId and email are
      truthy, and the single error InvalidRefreshToken otherwise. */
  lemma RefreshKeepsClaims(env: Env, o: Oracles, token: string, c: Claims)
    requires SecretsConfigured(env)
    requires o.verify(token, env.jwtRefreshSecret) == Decoded(Some(c.userId), Some(c.email))
    ensures Refresh(env, o, token) ==
      if c.userId != 0 && c.email != "" then Ok(o.sign(c, env.jwtSecret, AccessExpiry))
      else Err(InvalidRefreshToken)
  {
  }

  /** Refresh reports only two errors: the missing secrets, and InvalidRefreshToken for
      every rejection or incomplete payload. */
  lemma RefreshSingleError(env: Env, o: Oracles, token: string)
    ensures var r := Refresh(env, o, token);
      && (r.Err? ==> r.error == SecretsMissing || r.error == InvalidRefreshToken)
      && (r.Err? && SecretsConfigured(env) ==> r.error == InvalidRefreshToken)
      && (SecretsConfigured(env) && o.verify(token, env.jwtRefreshSecret) == Rejected ==>
            r == Err(InvalidRefreshToken))
  {
  }

  /** Appending a row with an email not yet present makes it the one the lookup finds. */
  lemma {:induction false} FindAppended(users: seq<UserRow>, u: UserRow)
    requires !EmailTaken(users, u.email)
    ensures FindByEmail(users + [u], u.email) == Some(u)
  {
    if users == [] {
      assert users + [u] == [u];
    } else {
      assert (users + [u])[1..] == users[1..] + [u];
      assert users[0] in users;
      assert !EmailTaken(users[1..], u.email) by {
        forall v | v in users[1..] ensures v.email != u.email {
          assert v in users;
        }
      }
      FindAppended(users[1..], u);
    }
  }

  /** The Users table with its identity counter. */
  class UserTable {
    var rows: seq<UserRow>
    var nextId: int

    /** The identity counter starts at 1 and is above every id in the table. */
    ghost predicate Valid()
      reads this
    {
      nextId >= 1 && forall u :: u in rows ==> 1 <= u.id < nextId
    }

    constructor ()
      ensures Valid() && rows == [] && nextId == 1
    {
      rows := [];
      nextId := 1;
    }

    /** Register: secrets, then the uniqueness lookup, then one INSERT and the token
        pair over the new row. Nothing is inserted on either error. */
    method Register(env: Env, o: Oracles, name: string, email: string, password: string,
                    salt: string, now: int) returns (r: Result<Session>)
      requires Valid()
      modifies this
      ensures Valid()
      ensures !SecretsConfigured(env) ==> r == Err(SecretsMissing) && unchanged(this)
      ensures SecretsConfigured(env) && EmailTaken(old(rows), email) ==>
                r == Err(EmailExists) && unchanged(this)
      ensures SecretsConfigured(env) && !EmailTaken(old(rows), email) ==>
                var u := NewUser(old(nextId), name, email, password, salt, now, o);
                && r == Ok(IssueSession(env, o, u))
                && rows == old(rows) + [u] && nextId == old(nextId) + 1
                && u.id !in set v | v in old(rows) :: v.id
    {
      if !SecretsConfigured(env) {
        return Err(SecretsMissing);
      }
      if FindByEmail(rows, email).Some? {
        return Err(EmailExists);
      }
      var hashed := o.hash(password, salt);
      var user := UserRow(nextId, name, email, Some(hashed), Some(salt), None, None, now, now);
      rows := rows + [user];
      nextId := nextId + 1;
      r := Ok(IssueSession(env, o, user));
    }
  }

  /** Registering an email twice in a row: whatever the first call did, the second
      fails with EmailExists, and the table holds at most the first call's row. */
  method RegisterTwice(table: UserTable, env: Env, o: Oracles, email: string, salt: string, now: int)
    returns (first: Result<Session>, second: Result<Session>)
    requires table.Valid() && SecretsConfigured(env)
    modifies table
    ensures table.Valid()
    ensures first.Ok? <==> !EmailTaken(old(table.rows), email)
    ensures second == Err(EmailExists)
    ensures table.rows == old(table.rows) + (if first.Ok? then [first.value.user] else [])
  {
    first := table.Register(env, o, "A", email, "12345678", salt, now);
    if first.Ok? {
      assert table.rows[|table.rows| - 1].email == email;
    }
    assert EmailTaken(table.rows, email);
    second := table.Register(env, o, "B", email, "other-password", salt, now);
  }
}
