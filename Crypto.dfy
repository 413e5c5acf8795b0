/** The password-hashing and token-signing libraries, kept uninterpreted: the model
    receives them as function-valued parameters and assumes nothing about them. */
module Crypto {
  import opened Common

  /** The identity claims a token carries: `{ userId, email }`. */
  datatype Claims = Claims(userId: int, email: string)

  /** What token verification yields: it throws (bad signature, expired, malformed,
      no secret), or it returns the decoded payload, whose `userId` and `email`
      claims may be missing. */
  datatype Verified = Rejected | Decoded(userId: Option<int>, email: Option<string>)

  /** The four foreign calls:
      hash(password, salt), compare(password, storedHash),
      sign(claims, secret, expiresIn), verify(token, secret). */
  datatype Oracles = Oracles(
    hash: (string, string) -> string,
    compare: (string, string) -> bool,
    sign: (Claims, string, string) -> string,
    verify: (string, string) -> Verified)

  /** The process environment. An unset variable and an empty one are both falsy,
      and both are represented by "". */
  datatype Env = Env(jwtSecret: string, jwtRefreshSecret: string, refreshExpiresIn: string)

  const AccessExpiry: string := "2d"
  const DefaultRefreshExpiry: string := "7d"

  /** `!jwtSecret || !jwtRefreshSecret` fails. */
  predicate SecretsConfigured(env: Env)
  {
    env.jwtSecret != "" && env.jwtRefreshSecret != ""
  }

  /** `JWT_REFRESH_EXPIRES_IN || "7d"`. */
  function RefreshExpiry(env: Env): (e: string)
    ensures e != ""
    ensures env.refreshExpiresIn != "" ==> e == env.refreshExpiresIn
  {
    if env.refreshExpiresIn != "" then env.refreshExpiresIn else DefaultRefreshExpiry
  }

  /** The identity a decoded payload carries, or None when verification threw or when
      `!decoded.userId || !decoded.email` (a missing or zero userId, a missing or empty
      email). Only the two identity claims are kept. */
  function IdentityOf(v: Verified): (r: Option<Claims>)
    ensures r.Some? <==> v.Decoded? && v.userId.Some? && v.userId.value != 0
                                    && v.email.Some? && v.email.value != ""
    ensures r.Some? ==> v == Decoded(Some(r.value.userId), Some(r.value.email))
  {
    match v
    case Decoded(Some(id), Some(email)) =>
      if id != 0 && email != "" then Some(Claims(id, email)) else None
    case _ => None
  }

  /** A hypothesis about the token library, never a fact of the code: a token signed
      with a non-empty secret is non-empty and, while it has not expired, verifies under
      the same secret to exactly the claims it was signed with. */
  ghost predicate SignVerifyRoundTrip(o: Oracles)
  {
    forall c: Claims, secret: string, expiresIn: string ::
      secret != "" ==>
        o.sign(c, secret, expiresIn) != "" &&
        o.verify(o.sign(c, secret, expiresIn), secret) == Decoded(Some(c.userId), Some(c.email))
  }

  /** A hypothesis about the hashing library: a password matches its own hash. */
  ghost predicate HashCompareRoundTrip(o: Oracles)
  {
    forall password: string, salt: string ::
      o.compare(password, o.hash(password, salt))
  }
}
