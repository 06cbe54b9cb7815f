/**
 * src/middlewares/auth.middleware.js: `validToken`, which picks the access
 * token from the request, resolves it to a user and attaches that user to
 * the request.
 */
module Auth {
  import opened Common
  import opened Entities
  import opened External
  import opened Store
  import opened Text

  /** The parts of a request the middleware reads and the one it sets. */
  class Request {
    var cookieToken: Option<string>
    var authenticateHeader: Option<string>
    var user: Option<PublicUser>

    constructor(cookieToken: Option<string>, authenticateHeader: Option<string>)
      ensures this.cookieToken == cookieToken && this.authenticateHeader == authenticateHeader
      ensures user.None?
    {
      this.cookieToken := cookieToken;
      this.authenticateHeader := authenticateHeader;
      user := None;
    }
  }

  /** The `accessToken` cookie when it is non-empty, else the `Authenticate` header without its first "Bearer ". */
  function SelectToken(cookieToken: Option<string>, authenticateHeader: Option<string>): (r: Option<string>)
    ensures Truthy(cookieToken) ==> r == cookieToken
    ensures !Truthy(cookieToken) ==> (r.Some? <==> authenticateHeader.Some?)
    ensures !Truthy(cookieToken) && authenticateHeader.Some? ==> |r.value| <= |authenticateHeader.value|
  {
    if Truthy(cookieToken) then cookieToken
    else if authenticateHeader.None? then None
    else Some(RemoveFirst(authenticateHeader.value, "Bearer "))
  }

  /**
   * The cookie wins whenever it is non-empty; otherwise a header of the form
   * "Bearer <token>" yields exactly <token>, and a header without "Bearer "
   * is taken as it is.
   */
  lemma SelectTokenSpec(cookieToken: Option<string>, authenticateHeader: Option<string>, token: string)
    ensures Truthy(cookieToken) ==> SelectToken(cookieToken, authenticateHeader) == cookieToken
    ensures !Truthy(cookieToken) ==> SelectToken(cookieToken, Some("Bearer " + token)) == Some(token)
    ensures !Truthy(cookieToken) && IndexOf(token, "Bearer ").None? ==> SelectToken(cookieToken, Some(token)) == Some(token)
    ensures !Truthy(cookieToken) && authenticateHeader.None? ==> SelectToken(cookieToken, authenticateHeader).None?
  {
    RemoveLeading("Bearer ", token);
  }

  /**
   * `validToken`. Every failure (no token, a token that does not verify
   * under the access secret, or one naming no user) is rethrown as a plain
   * `Error`, so it answers 500 and `next` is not reached; the request is
   * then left as it was. On success the user, without password and refresh
   * token, is attached and `next` is called (`Ok`).
   */
  method ValidToken(req: Request, db: Db, jwt: Jwt) returns (r: Outcome<()>)
    modifies req
    ensures req.cookieToken == old(req.cookieToken) && req.authenticateHeader == old(req.authenticateHeader)
    ensures var token := SelectToken(old(req.cookieToken), old(req.authenticateHeader));
      if !Truthy(token) then r == Err(ServerError) && req.user == old(req.user)
      else match jwt.verify(token.value, AccessTokenSecret)
        case None => r == Err(ServerError) && req.user == old(req.user)
        case Some(claims) =>
          match FindUser(db.users, claims.id)
          case None => r == Err(ServerError) && req.user == old(req.user)
          case Some(k) => r == Ok(()) && req.user == Some(Public(db.users[k]))
  {
    var token := SelectToken(req.cookieToken, req.authenticateHeader);
    if !Truthy(token) {
      return Err(ServerError);
    }
    var decoded := jwt.verify(token.value, AccessTokenSecret);
    if decoded.None? {
      return Err(ServerError);
    }
    var found := FindUser(db.users, decoded.value.id);
    if found.None? {
      return Err(ServerError);
    }
    req.user := Some(Public(db.users[found.value]));
    r := Ok(());
  }

  /** The attached user shows neither password nor refresh token: changing those leaves it as it is. */
  lemma AttachedUserHidesSecrets(u: User, password: string, refreshToken: string)
    ensures Public(u.(password := password, refreshToken := refreshToken)) == Public(u)
  {
  }
}
