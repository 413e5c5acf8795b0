/** How register, login, refresh and the bearer gate fit together. Each property holds
    only under a stated hypothesis about the foreign libraries (a password matches its
    own hash; a signed token verifies to its claims), which is a requirement of the
    lemma and never a fact the code relies on. */
module AuthFlow {
  import opened Common
  import opened Crypto
  import opened AuthService
  import opened AuthMiddleware

  /** The row register inserts is the row login then finds, and login succeeds for it
      with the registered password, issuing the same token pair register issued. */
  lemma RegisterThenLogin(users: seq<UserRow>, env: Env, o: Oracles, id: int, name: string,
                          email: string, password: string, salt: string, now: int)
    requires HashCompareRoundTrip(o)
    requires SecretsConfigured(env)
    requires !EmailTaken(users, email)
    requires email != "" && password != "" && o.hash(password, salt) != ""
    ensures var u := NewUser(id, name, email, password, salt, now, o);
      Login(users + [u], env, o, email, password) == Ok(IssueSession(env, o, u))
  {
    var u := NewUser(id, name, email, password, salt, now, o);
    FindAppended(users, u);
  }

  /** Register does not refuse an empty password, but login does: such an account can
      never log in. */
  lemma EmptyPasswordNeverLogsIn(users: seq<UserRow>, env: Env, o: Oracles, email: string, password: string)
    requires SecretsConfigured(env)
    requires password == ""
    ensures Login(users, env, o, email, password) == Err(CredentialsMissing)
  {
  }

  /** An access token issued to a user passes the gate as that user. */
  lemma AccessTokenAuthenticates(env: Env, o: Oracles, user: UserRow, upper: Header)
    requires SignVerifyRoundTrip(o)
    requires SecretsConfigured(env)
    requires user.id != 0 && user.email != ""
    ensures Gate(Text(BearerPrefix + IssueSession(env, o, user).accessToken), upper, env.jwtSecret, o.verify)
         == Authenticated(ClaimsOf(user))
  {
    var token := IssueSession(env, o, user).accessToken;
    assert token == o.sign(ClaimsOf(user), env.jwtSecret, AccessExpiry);
    BearerTokenOutcome(token, upper, env.jwtSecret, o.verify);
  }

  /** The refresh token of an issued session refreshes to a new access token over the
      same claims, and that token passes the gate as the same user. */
  lemma RefreshedTokenAuthenticates(env: Env, o: Oracles, user: UserRow, upper: Header)
    requires SignVerifyRoundTrip(o)
    requires SecretsConfigured(env)
    requires user.id != 0 && user.email != ""
    ensures var r := Refresh(env, o, IssueSession(env, o, user).refreshToken);
      && r == Ok(o.sign(ClaimsOf(user), env.jwtSecret, AccessExpiry))
      && Gate(Text(BearerPrefix + r.value), upper, env.jwtSecret, o.verify) == Authenticated(ClaimsOf(user))
  {
    var refresh := IssueSession(env, o, user).refreshToken;
    assert refresh == o.sign(ClaimsOf(user), env.jwtRefreshSecret, RefreshExpiry(env));
    RefreshKeepsClaims(env, o, refresh, ClaimsOf(user));
    AccessTokenAuthenticates(env, o, user, upper);
  }

  /** The whole chain: register, log in, refresh, and pass the gate as the new user. */
  lemma RegisterLoginRefreshAuthenticate(users: seq<UserRow>, env: Env, o: Oracles, id: int, name: string,
                                         email: string, password: string, salt: string, now: int)
    requires HashCompareRoundTrip(o) && SignVerifyRoundTrip(o)
    requires SecretsConfigured(env)
    requires !EmailTaken(users, email)
    requires id != 0 && email != "" && password != "" && o.hash(password, salt) != ""
    ensures var login := Login(users + [NewUser(id, name, email, password, salt, now, o)], env, o, email, password);
      && login.Ok?
      && var refreshed := Refresh(env, o, login.value.refreshToken);
         && refreshed.Ok?
         && Gate(Text(BearerPrefix + refreshed.value), Missing, env.jwtSecret, o.verify)
            == Authenticated(Claims(id, email))
  {
    var u := NewUser(id, name, email, password, salt, now, o);
    RegisterThenLogin(users, env, o, id, name, email, password, salt, now);
    RefreshedTokenAuthenticates(env, o, u, Missing);
  }
}
