/** The authentication middleware: reading the bearer token from the Authorization header,
    attaching the verified user to the request, the admin role gate and token issue.
    Signing and verifying tokens (JSON Web Tokens, RFC 7519) are a pair of functions handed
    in as a `JwtOracle`; the secret and the 24-hour expiry live inside them. */
module AuthMiddleware {
  import opened Wrappers
  import opened Strings
  import opened Models

  /** `jwt.sign` with the server secret, and `jwt.verify`, which fails (`None`) on a token
      it does not accept. */
  datatype JwtOracle = JwtOracle(sign: UserDto -> string, verify: string -> Option<UserDto>)

  /** What the token library guarantees and the proofs rely on: a token it issued verifies
      to the payload it was issued for, and holds no space (it is three base64url parts
      joined by dots). */
  ghost predicate Sound(jwt: JwtOracle) {
    forall c: UserDto :: jwt.verify(jwt.sign(c)) == Some(c) && ' ' !in jwt.sign(c)
  }

  /** The token issued at registration and login: the signature of the user's five public
      fields. */
  function GenerateToken(user: UserDto, jwt: JwtOracle): (token: string)
    ensures Sound(jwt) ==> jwt.verify(token) == Some(user) && ' ' !in token
  {
    jwt.sign(UserDto(user.id, user.firstName, user.lastName, user.email, user.role))
  }

  const BearerPrefix := "Bearer "
  const NoTokenMessage := "Access denied. No token provided."
  const InvalidTokenMessage := "Invalid token."
  const AdminRequiredMessage := "Access denied. Admin privileges required."

  /** The second space-separated field of an Authorization header that starts with
      "Bearer ": the text after the prefix up to the next space. */
  function BearerToken(header: Option<string>): (token: Option<string>)
    ensures token.Some? <==> header.Some? && StartsWith(header.value, BearerPrefix)
    ensures token.Some? ==>
      var rest := header.value[|BearerPrefix|..];
      && ' ' !in token.value
      && StartsWith(rest, token.value)
      && (|token.value| < |rest| ==> rest[|token.value|] == ' ')
  {
    if header.None? || !StartsWith(header.value, BearerPrefix) then None
    else
      var h := header.value;
      var rest := h[|BearerPrefix|..];
      assert h == "Bearer" + [' '] + rest;
      SplitAfterSeparator("Bearer", ' ', rest);
      SplitFirstPiece(rest, ' ');
      Some(Split(h, ' ')[1])
  }

  /** A header carrying a token without spaces yields exactly that token. */
  lemma BearerTokenOfHeader(token: string)
    requires ' ' !in token
    ensures BearerToken(Some(BearerPrefix + token)) == Some(token)
  {
    var h := BearerPrefix + token;
    assert h[..|BearerPrefix|] == BearerPrefix;
    assert h[|BearerPrefix|..] == token;
    var t := BearerToken(Some(h)).value;
    assert t == token[..|t|];
    assert |t| >= |token|;
    assert token[..|token|] == token;
  }

  /** What verifyToken decides about a request: the verified user, or the 401 message. */
  datatype AuthDecision = Authenticated(user: UserDto) | Rejected(message: string)

  function Authenticate(header: Option<string>, jwt: JwtOracle): (d: AuthDecision)
    ensures BearerToken(header).None? ==> d == Rejected(NoTokenMessage)
    ensures d.Authenticated? <==> BearerToken(header).Some? && jwt.verify(BearerToken(header).value).Some?
    ensures d.Authenticated? ==> Some(d.user) == jwt.verify(BearerToken(header).value)
    ensures BearerToken(header).Some? && jwt.verify(BearerToken(header).value).None?
            ==> d == Rejected(InvalidTokenMessage)
  {
    match BearerToken(header)
    case None => Rejected(NoTokenMessage)
    case Some(token) =>
      match jwt.verify(token)
      case None => Rejected(InvalidTokenMessage)
      case Some(user) => Authenticated(user)
  }

  /** A header built from a freshly issued token authenticates as the user it was issued for. */
  lemma IssuedTokenAuthenticates(user: UserDto, jwt: JwtOracle)
    requires Sound(jwt)
    ensures Authenticate(Some(BearerPrefix + GenerateToken(user, jwt)), jwt) == Authenticated(user)
  {
    BearerTokenOfHeader(GenerateToken(user, jwt));
  }

  /** What a middleware does with the request: hand it on (`next()`), or answer it. */
  datatype Outcome = Next | Halt(status: int, message: string)

  /** verifyAdmin: only a request whose attached user has the admin role goes on. */
  function VerifyAdmin(user: Option<UserDto>): (o: Outcome)
    ensures o == Next <==> user.Some? && user.value.role == AdminRole
    ensures o.Halt? ==> o == Halt(FORBIDDEN, AdminRequiredMessage)
  {
    if user.None? || user.value.role != AdminRole then Halt(FORBIDDEN, AdminRequiredMessage) else Next
  }

  /** A request as the middleware sees it: its Authorization header and the user field that
      verifyToken fills in. */
  class AuthRequest {
    const authorization: Option<string>
    var user: Option<UserDto>

    constructor (authorization: Option<string>)
      ensures this.authorization == authorization && user == None
    {
      this.authorization := authorization;
      user := None;
    }

    /** verifyToken: on a verified token, attach its user and go on; otherwise answer 401 and
        leave `user` as it was. */
    method VerifyToken(jwt: JwtOracle) returns (outcome: Outcome)
      modifies this`user
      ensures match Authenticate(authorization, jwt)
        case Authenticated(u) => outcome == Next && user == Some(u)
        case Rejected(m) => outcome == Halt(UNAUTHORIZED, m) && user == old(user)
    {
      var token := BearerToken(authorization);
      if token.None? {
        return Halt(UNAUTHORIZED, NoTokenMessage);
      }
      var decoded := jwt.verify(token.value);
      if decoded.None? {
        return Halt(UNAUTHORIZED, InvalidTokenMessage);
      }
      user := decoded;
      outcome := Next;
    }
  }
}
