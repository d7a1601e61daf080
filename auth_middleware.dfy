/**
 * backend/src/api/middlewares/authMiddleware.ts: Bearer-token extraction
 * and the tsoa authentication hook. `jwt.verify` is an oracle parameter;
 * turning the verified `userId` claim into an ObjectId is folded into it.
 */
module AuthMiddleware {
  import opened Wrappers
  import opened ErrorTypes
  import opened ObjectIds

  /** A verified payload. An empty `role` stands for an absent one. */
  datatype Claims = Claims(userId: UserId, email: string, role: string)

  /** What `jwt.verify(token, secret)` does: return a payload or throw. */
  datatype Verification =
    | Verified(claims: Claims)
    | TokenExpired              // TokenExpiredError
    | MalformedToken            // any other JsonWebTokenError
    | VerifierThrew(message: string)  // any other Error

  type Verifier = (string, string) -> Verification

  const BearerPrefix: string := "Bearer "

  predicate HasPrefix(s: string, prefix: string)
  {
    |prefix| <= |s| && s[..|prefix|] == prefix
  }

  /**
   * extractTokenFromRequest: the Authorization header with its 7-character
   * `"Bearer "` prefix removed; nothing for a missing header or any other prefix.
   */
  function ExtractToken(authorization: Option<string>): (r: Option<string>)
    ensures r.Some? <==> authorization.Some? && HasPrefix(authorization.value, BearerPrefix)
    ensures r.Some? ==> BearerPrefix + r.value == authorization.value
  {
    if authorization.None? || authorization.value == "" || !HasPrefix(authorization.value, BearerPrefix) then None
    else
      var token := authorization.value[7..];
      assert authorization.value == authorization.value[..7] + token;
      Some(token)
  }

  /** Extraction undoes prefixing: the partner of ExtractToken. */
  lemma ExtractTokenInverse(token: string)
    ensures ExtractToken(Some(BearerPrefix + token)) == Some(token)
  {
    var header := BearerPrefix + token;
    assert header[..7] == BearerPrefix;
    assert header[7..] == token;
  }

  /** What the hook assigns to `request.user`. */
  datatype RequestUser = RequestUser(id: UserId, email: string, role: string)

  /** The user attached on success: role defaults to `'user'`. */
  function UserOf(c: Claims): (u: RequestUser)
    ensures u.id == c.userId && u.email == c.email
    ensures u.role == (if c.role == "" then "user" else c.role)
  {
    RequestUser(c.userId, c.email, if c.role == "" then "user" else c.role)
  }

  /** The token the hook works with, when there is a non-empty one. */
  function UsableToken(authorization: Option<string>): Option<string>
  {
    var t := ExtractToken(authorization);
    if t.Some? && t.value != "" then t else None
  }

  /** The observable effect of expressAuthentication: what `request.user` becomes, and what it returns or throws. */
  datatype AuthOutcome = AuthOutcome(attached: Option<RequestUser>, result: Result<Claims, Failure>)

  const PermissionDenied: string := "User does not have the required permissions"

  function Authenticate(securityName: string, authorization: Option<string>, scopes: seq<string>, secret: string, verify: Verifier): (r: AuthOutcome)
    ensures securityName != "jwt" ==> r == AuthOutcome(None, Err(App(ForbiddenError("Invalid authentication method"))))
    ensures securityName == "jwt" && UsableToken(authorization).None? ==>
      r == AuthOutcome(None, Err(App(UnauthorizedError("No token provided"))))
    ensures securityName == "jwt" && UsableToken(authorization).Some? && secret == "" ==>
      r.attached.None? && r.result.Err? && r.result.error.Thrown? && r.result.error.name == "Error"
    ensures securityName == "jwt" && UsableToken(authorization).Some? && secret != "" &&
            verify(UsableToken(authorization).value, secret).TokenExpired? ==>
      r == AuthOutcome(None, Err(App(UnauthorizedError("Token expired"))))
    ensures securityName == "jwt" && UsableToken(authorization).Some? && secret != "" &&
            verify(UsableToken(authorization).value, secret).MalformedToken? ==>
      r == AuthOutcome(None, Err(App(UnauthorizedError("Invalid token"))))
    ensures securityName == "jwt" && UsableToken(authorization).Some? && secret != "" &&
            verify(UsableToken(authorization).value, secret).VerifierThrew? ==>
      r == AuthOutcome(None, Err(App(UnauthorizedError("Authentication failed: " + verify(UsableToken(authorization).value, secret).message))))
    ensures r.attached.Some? <==>
      securityName == "jwt" && UsableToken(authorization).Some? && secret != "" && verify(UsableToken(authorization).value, secret).Verified?
    ensures r.attached.Some? ==> r.attached.value == UserOf(verify(UsableToken(authorization).value, secret).claims)
    ensures r.result.Ok? <==>
      r.attached.Some? && var c := verify(UsableToken(authorization).value, secret).claims;
      (scopes == [] || (c.role != "" && c.role in scopes))
    ensures r.result.Ok? ==> r.result.value == verify(UsableToken(authorization).value, secret).claims
    ensures r.attached.Some? && r.result.Err? ==>
      r.result.error == App(UnauthorizedError("Authentication failed: " + PermissionDenied))
    ensures r.result.Err? && r.result.error.App? && r.result.error.error.statusCode == StatusForbidden ==>
      securityName != "jwt"
  {
    if securityName != "jwt" then AuthOutcome(None, Err(App(ForbiddenError("Invalid authentication method"))))
    else if UsableToken(authorization).None? then AuthOutcome(None, Err(App(UnauthorizedError("No token provided"))))
    else if secret == "" then AuthOutcome(None, Err(PlainError("Error", "JWT_SECRET is not defined in environment variables")))
    else
      match verify(UsableToken(authorization).value, secret)
      case TokenExpired => AuthOutcome(None, Err(App(UnauthorizedError("Token expired"))))
      case MalformedToken => AuthOutcome(None, Err(App(UnauthorizedError("Invalid token"))))
      case VerifierThrew(message) => AuthOutcome(None, Err(App(UnauthorizedError("Authentication failed: " + message))))
      case Verified(c) =>
        if scopes != [] && (c.role == "" || c.role !in scopes) then
          AuthOutcome(Some(UserOf(c)), Err(App(UnauthorizedError("Authentication failed: " + PermissionDenied))))
        else AuthOutcome(Some(UserOf(c)), Ok(c))
  }

  /** An incoming request: its Authorization header and the user the hook attaches. */
  class AuthenticatedRequest {
    const authorization: Option<string>
    var user: Option<RequestUser>

    constructor (authorization: Option<string>)
      ensures this.authorization == authorization && user.None?
    {
      this.authorization := authorization;
      user := None;
    }
  }

  /**
   * expressAuthentication: assigns `request.user` as soon as the token
   * verifies, then may still throw (a role outside the scopes), in which
   * case the assignment stays.
   */
  method ExpressAuthentication(request: AuthenticatedRequest, securityName: string, scopes: seq<string>, secret: string, verify: Verifier)
    returns (r: Result<Claims, Failure>)
    modifies request
    ensures var o := Authenticate(securityName, request.authorization, scopes, secret, verify);
      r == o.result && request.user == (if o.attached.Some? then o.attached else old(request.user))
  {
    if securityName != "jwt" {
      return Err(App(ForbiddenError("Invalid authentication method")));
    }
    var token := ExtractToken(request.authorization);
    if token.None? || token.value == "" {
      return Err(App(UnauthorizedError("No token provided")));
    }
    if secret == "" {
      return Err(PlainError("Error", "JWT_SECRET is not defined in environment variables"));
    }
    var decoded := verify(token.value, secret);
    match decoded {
      case TokenExpired =>
        r := Err(App(UnauthorizedError("Token expired")));
      case MalformedToken =>
        r := Err(App(UnauthorizedError("Invalid token")));
      case VerifierThrew(message) =>
        r := Err(App(UnauthorizedError("Authentication failed: " + message)));
      case Verified(c) =>
        request.user := Some(UserOf(c));
        if |scopes| > 0 && (c.role == "" || c.role !in scopes) {
          r := Err(App(UnauthorizedError("Authentication failed: " + PermissionDenied)));
        } else {
          r := Ok(c);
        }
    }
  }

  /**
   * A role outside non-empty scopes is refused as Unauthorized, not
   * Forbidden: the ForbiddenError is caught and re-thrown.
   */
  lemma OutOfScopeIsUnauthorized(authorization: Option<string>, scopes: seq<string>, secret: string, verify: Verifier)
    requires UsableToken(authorization).Some? && secret != ""
    requires var v := verify(UsableToken(authorization).value, secret);
      v.Verified? && scopes != [] && v.claims.role !in scopes
    ensures var o := Authenticate("jwt", authorization, scopes, secret, verify);
      o.attached.Some? && o.result.Err? && o.result.error.App? && o.result.error.error.statusCode == StatusUnauthorized
  {
  }
}
