/** The bearer-header gate in front of every protected route: it classifies the
    `Authorization` header into one of the rejection outcomes or an authenticated
    identity, and on success records the identity on the request and passes control on.
    The token is taken under the `Bearer` scheme of section 2.1 of RFC 6750, matched
    case-sensitively with exactly one space; its verification (RFC 7519) is a parameter. */
module AuthMiddleware {
  import opened Common
  import opened Crypto

  /** A request header as the framework types it: absent, a string, or a list of strings. */
  datatype Header = Missing | Text(text: string) | List(items: seq<string>)

  /** JavaScript truthiness of a header value: a non-empty string, or any array. */
  predicate HeaderTruthy(h: Header)
  {
    (h.Text? && h.text != "") || h.List?
  }

  /** `req.headers.authorization || req.headers.Authorization`. */
  function PickHeader(lower: Header, upper: Header): (h: Header)
    ensures HeaderTruthy(h) <==> HeaderTruthy(lower) || HeaderTruthy(upper)
    ensures HeaderTruthy(lower) ==> h == lower
    ensures !HeaderTruthy(lower) ==> h == upper
  {
    if HeaderTruthy(lower) then lower else upper
  }

  const BearerPrefix: string := "Bearer "

  /** `header.startsWith("Bearer ")` and then `header.slice(7)`. */
  function ExtractToken(header: string): (r: Option<string>)
    ensures r.Some? <==> StartsWith(header, BearerPrefix)
    ensures r.Some? ==> header == BearerPrefix + r.value
  {
    if StartsWith(header, BearerPrefix) then
      assert header == header[..7] + header[7..];
      Some(header[7..])
    else
      None
  }

  /** Extraction inverts the scheme prefix: the token of "Bearer " + t is t. */
  lemma ExtractTokenRoundTrip(token: string)
    ensures ExtractToken(BearerPrefix + token) == Some(token)
  {
    StartsWithConcat(BearerPrefix, token);
  }

  /** The five ways a request can leave the gate, plus the uncaught fault of an empty
      header list (`authHeader[0].startsWith` throws outside the `try`). */
  datatype Outcome =
    | NoTokenProvided
    | InvalidFormat
    | InvalidToken
    | InvalidPayload
    | HeaderFault
    | Authenticated(user: Claims)

  function StatusOf(o: Outcome): (status: int)
    ensures o.Authenticated? <==> status == 200
  {
    match o
    case Authenticated(_) => 200
    case HeaderFault => 500
    case _ => 401
  }

  /** The JSON `message` of the rejection; the fault produces no JSON body. */
  function MessageOf(o: Outcome): (m: Option<string>)
    ensures m.None? <==> o.Authenticated? || o.HeaderFault?
  {
    match o
    case NoTokenProvided => Some("No token provided")
    case InvalidFormat => Some("Invalid token format")
    case InvalidToken => Some("Invalid token")
    case InvalidPayload => Some("Invalid token payload")
    case _ => None
  }

  /** The decision after a header string has been chosen. */
  function CheckBearer(header: string, secret: string, verify: (string, string) -> Verified): (o: Outcome)
    ensures o != HeaderFault
  {
    match ExtractToken(header)
    case None => InvalidFormat
    case Some(token) =>
      if token == "" then NoTokenProvided
      else
        var decoded := verify(token, secret);
        if decoded.Rejected? then InvalidToken
        else
          match IdentityOf(decoded)
          case None => InvalidPayload
          case Some(c) => Authenticated(c)
  }

  /** The whole classification: pick a header, take the first element of a list, check it. */
  function Gate(lower: Header, upper: Header, secret: string, verify: (string, string) -> Verified): (o: Outcome)
    ensures o == HeaderFault <==> PickHeader(lower, upper) == List([])
    ensures o.Authenticated? ==> HeaderTruthy(lower) || HeaderTruthy(upper)
  {
    var h := PickHeader(lower, upper);
    if !HeaderTruthy(h) then NoTokenProvided
    else if h.List? && h.items == [] then HeaderFault
    else CheckBearer(if h.List? then h.items[0] else h.text, secret, verify)
  }

  /** With neither spelling of the header present, the request is rejected as having no token. */
  lemma NoHeaderMeansNoToken(lower: Header, upper: Header, secret: string, verify: (string, string) -> Verified)
    requires !HeaderTruthy(lower) && !HeaderTruthy(upper)
    ensures Gate(lower, upper, secret, verify) == NoTokenProvided
  {
  }

  /** Of a list-valued header only the first element is examined, and the other
      spelling is then never consulted. */
  lemma OnlyFirstElementExamined(first: string, rest1: seq<string>, rest2: seq<string>,
                                 upper1: Header, upper2: Header,
                                 secret: string, verify: (string, string) -> Verified)
    ensures Gate(List([first] + rest1), upper1, secret, verify)
         == Gate(List([first] + rest2), upper2, secret, verify)
         == CheckBearer(first, secret, verify)
    ensures first != "" ==>
      Gate(List([first] + rest1), upper1, secret, verify) == Gate(Text(first), upper2, secret, verify)
  {
  }

  /** A header that does not begin with exactly "Bearer " is a format error, whatever
      the case of the scheme or the spacing. */
  lemma NonBearerIsInvalidFormat(header: string, upper: Header, secret: string, verify: (string, string) -> Verified)
    requires header != "" && !StartsWith(header, BearerPrefix)
    ensures Gate(Text(header), upper, secret, verify) == InvalidFormat
  {
  }

  /** The lower-case scheme is refused: the match is case-sensitive. */
  lemma LowerCaseSchemeRefused(token: string, secret: string, verify: (string, string) -> Verified)
    ensures Gate(Text("bearer " + token), Missing, secret, verify) == InvalidFormat
  {
    assert ("bearer " + token)[0] == 'b';
  }

  /** "Bearer " followed by nothing is reported as a missing token, and the verifier is
      never consulted. */
  lemma BareSchemeMeansNoToken(upper: Header, secret: string, verify: (string, string) -> Verified)
    ensures Gate(Text(BearerPrefix), upper, secret, verify) == NoTokenProvided
  {
    ExtractTokenRoundTrip("");
    assert BearerPrefix + "" == BearerPrefix;
  }

  /** Every outcome of a "Bearer " + token header, in terms of the token alone. */
  lemma BearerTokenOutcome(token: string, upper: Header, secret: string, verify: (string, string) -> Verified)
    ensures var o := Gate(Text(BearerPrefix + token), upper, secret, verify);
      && (token == "" ==> o == NoTokenProvided)
      && (token != "" && verify(token, secret) == Rejected ==> o == InvalidToken)
      && (token != "" && verify(token, secret).Decoded? && IdentityOf(verify(token, secret)).None? ==>
            o == InvalidPayload)
      && (token != "" && IdentityOf(verify(token, secret)).Some? ==>
            o == Authenticated(IdentityOf(verify(token, secret)).value))
  {
    ExtractTokenRoundTrip(token);
  }

  /** A request is authenticated only through a "Bearer " header whose non-empty token
      verifies to a payload with a truthy userId and email, and the identity recorded is
      exactly those two claims. */
  lemma AuthenticatedOnlyViaBearer(lower: Header, upper: Header, secret: string,
                                   verify: (string, string) -> Verified)
    requires Gate(lower, upper, secret, verify).Authenticated?
    ensures var h := PickHeader(lower, upper);
      var s := if h.List? then h.items[0] else h.text;
      var c := Gate(lower, upper, secret, verify).user;
      && HeaderTruthy(h) && (h.List? ==> h.items != [])
      && |s| > |BearerPrefix| && s == BearerPrefix + s[7..]
      && verify(s[7..], secret) == Decoded(Some(c.userId), Some(c.email))
      && c.userId != 0 && c.email != ""
  {
    var h := PickHeader(lower, upper);
    var s := if h.List? then h.items[0] else h.text;
    assert ExtractToken(s).Some?;
  }

  /** The request/response pair the gate acts on: `req.user`, the response sent (if
      any) and whether `next()` was called. */
  class Exchange {
    var user: Option<Claims>
    var status: Option<int>
    var message: Option<string>
    var nextCalled: bool

    constructor ()
      ensures user == None && status == None && message == None && !nextCalled
    {
      user := None;
      status := None;
      message := None;
      nextCalled := false;
    }
  }

  /** The middleware itself: rejects with a status and message and leaves `req.user`
      alone, or sets `req.user` to exactly the payload's `{ userId, email }` and calls
      `next()` without sending a response. */
  method Authenticate(ex: Exchange, lower: Header, upper: Header, secret: string,
                      verify: (string, string) -> Verified)
    modifies ex
    ensures var o := Gate(lower, upper, secret, verify);
      if o.Authenticated? then
        && ex.user == Some(o.user) && ex.nextCalled
        && ex.status == old(ex.status) && ex.message == old(ex.message)
      else
        && ex.user == old(ex.user) && ex.nextCalled == old(ex.nextCalled)
        && ex.status == Some(StatusOf(o)) && ex.message == MessageOf(o)
  {
    var authHeader := PickHeader(lower, upper);
    if !HeaderTruthy(authHeader) {
      ex.status, ex.message := Some(401), Some("No token provided");
      return;
    }
    if authHeader.List? && |authHeader.items| == 0 {
      ex.status, ex.message := Some(500), None;
      return;
    }
    var headerString := if authHeader.List? then authHeader.items[0] else authHeader.text;
    assert Gate(lower, upper, secret, verify) == CheckBearer(headerString, secret, verify);
    if !StartsWith(headerString, BearerPrefix) {
      ex.status, ex.message := Some(401), Some("Invalid token format");
      return;
    }
    var token := headerString[7..];
    assert ExtractToken(headerString) == Some(token);
    if token == "" {
      ex.status, ex.message := Some(401), Some("No token provided");
      return;
    }
    var decoded := verify(token, secret);
    if decoded.Rejected? {
      ex.status, ex.message := Some(401), Some("Invalid token");
      return;
    }
    if decoded.userId.None? || decoded.userId.value == 0 || decoded.email.None? || decoded.email.value == "" {
      ex.status, ex.message := Some(401), Some("Invalid token payload");
      return;
    }
    ex.user := Some(Claims(decoded.userId.value, decoded.email.value));
    ex.nextCalled := true;
  }
}
