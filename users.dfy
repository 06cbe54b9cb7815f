/**
 * src/controllers/user.controllers.js: registration, login and logout,
 * token generation and refresh, password change and account update.
 */
module Users {
  import opened Common
  import opened Entities
  import opened External
  import opened Docs
  import opened Store
  import opened UserModel
  import opened Cloud

  // ---------------------------------------------------------------------
  // generateAccessTokenAndRefreshToken

  datatype Tokens = Tokens(accessToken: string, refreshToken: string)

  /** The user with the new refresh token stored on it. */
  function WithRefreshToken(u: User, jwt: Jwt): User {
    u.(refreshToken := RefreshToken(u, jwt))
  }

  /** Storing a refresh token changes no unique or normalised field, so the store stays valid. */
  lemma StoreTokenKeepsValid(s: State, k: nat, jwt: Jwt)
    requires ValidState(s) && k < |s.users|
    ensures ValidState(s.(users := s.users[k := WithRefreshToken(s.users[k], jwt)]))
  {
    ReplaceUserKeepsValid(s, k, WithRefreshToken(s.users[k], jwt));
  }

  /**
   * `generateAccessTokenAndRefreshToken`: every failure (here, a missing
   * user) becomes 500; otherwise both tokens are signed from the stored
   * user, the refresh token is stored (the password is not re-hashed, being
   * unmodified) and both are answered.
   */
  method GenerateTokens(db: Db, userId: Id, jwt: Jwt) returns (r: Outcome<Tokens>)
    requires db.Valid()
    modifies db
    ensures db.Valid()
    ensures match FindUser(old(db.users), userId)
      case None => r == Err(ServerError) && db.Snapshot() == old(db.Snapshot())
      case Some(k) =>
        var u := old(db.users)[k];
        && r == Ok(Tokens(AccessToken(u, jwt), RefreshToken(u, jwt)))
        && db.Snapshot() == old(db.Snapshot()).(users := old(db.users)[k := WithRefreshToken(u, jwt)])
        && db.users[k].refreshToken == r.value.refreshToken
  {
    var found := FindUser(db.users, userId);
    if found.None? {
      return Err(ServerError);
    }
    var k := found.value;
    var u := db.users[k];
    StoreTokenKeepsValid(db.Snapshot(), k, jwt);
    db.users := db.users[k := WithRefreshToken(u, jwt)];
    r := Ok(Tokens(AccessToken(u, jwt), RefreshToken(u, jwt)));
  }

  // ---------------------------------------------------------------------
  // registerUser

  /** The files of a multipart registration: the first avatar's path, if that field came, and whether cover images came. */
  datatype RegisterFiles = RegisterFiles(avatar: Option<string>, coverImage: bool)

  /** `field?.trim() === ""`: a missing field is not blank. */
  predicate Blank(field: Option<string>) {
    field.Some? && Trim(field.value) == ""
  }

  /** The `$or` of username and email, with the schema's setters applied to the query values. */
  function Taken(username: Option<string>, email: Option<string>): User -> bool {
    (u: User) =>
      (username.Some? && u.username == Normalize(username.value)) || (email.Some? && u.email == Normalize(email.value))
  }

  /** No field is blank and no stored user holds the username or email: the request gets past the first two guards. */
  predicate Cleared(
    users: seq<User>, fullname: Option<string>, email: Option<string>, password: Option<string>, username: Option<string>)
  {
    && !(Blank(fullname) || Blank(email) || Blank(password) || Blank(username))
    && forall j :: 0 <= j < |users| ==> !Taken(username, email)(users[j])
  }

  /**
   * The decision `registerUser` takes over the current users. A blank field
   * is 400 and a taken username or email 409. A file upload without the
   * avatar field fails on `avatar[0]`, and one with cover images fails on
   * reading them from the body (both 500). No avatar path, or a failed
   * avatar upload, is 400. A missing field, or an empty avatar URL, fails
   * creation (500).
   */
  function Register(
    users: seq<User>, fullname: Option<string>, email: Option<string>, password: Option<string>, username: Option<string>,
    files: Option<RegisterFiles>, avatarAnswer: Option<Uploaded>, bcrypt: Bcrypt, newId: Id)
    : (r: Outcome<User>)
    ensures Blank(fullname) || Blank(email) || Blank(password) || Blank(username) ==> r == Err(BadRequest)
    ensures (
      && !(Blank(fullname) || Blank(email) || Blank(password) || Blank(username))
      && (exists j :: 0 <= j < |users| && Taken(username, email)(users[j]))) ==> r == Err(Conflict)
    ensures r.Ok? ==>
      && fullname.Some? && email.Some? && password.Some? && username.Some?
      && files.Some? && !files.value.coverImage && Truthy(files.value.avatar) && avatarAnswer.Some?
      && r.value == User(newId, Normalize(username.value), Normalize(email.value), Trim(fullname.value),
                         avatarAnswer.value.url, "", [], bcrypt.hash(password.value, SaltRounds), "")
      && r.value.avatar != ""
      && (forall j :: 0 <= j < |users| ==> users[j].username != r.value.username && users[j].email != r.value.email)
    ensures (
      && Cleared(users, fullname, email, password, username)
      && files.Some? && (files.value.avatar.None? || files.value.coverImage)) ==> r == Err(ServerError)
    ensures (
      && Cleared(users, fullname, email, password, username)
      && (files.None? || (!files.value.coverImage && files.value.avatar == Some("")))) ==> r == Err(BadRequest)
    ensures (
      && Cleared(users, fullname, email, password, username)
      && files.Some? && !files.value.coverImage && Truthy(files.value.avatar)
      && avatarAnswer.None?) ==> r == Err(BadRequest)
    ensures (
      && Cleared(users, fullname, email, password, username)
      && files.Some? && !files.value.coverImage && Truthy(files.value.avatar) && avatarAnswer.Some?
      && (fullname.None? || email.None? || password.None? || username.None? || avatarAnswer.value.url == "")) ==>
      r == Err(ServerError)
    ensures (
      && fullname.Some? && email.Some? && password.Some? && username.Some?
      && Cleared(users, fullname, email, password, username)
      && files.Some? && !files.value.coverImage && Truthy(files.value.avatar)
      && avatarAnswer.Some? && avatarAnswer.value.url != "") ==> r.Ok?
  {
    if Blank(fullname) || Blank(email) || Blank(password) || Blank(username) then Err(BadRequest)
    else if Find(users, Taken(username, email)).Some? then Err(Conflict)
    else if files.Some? && files.value.avatar.None? then Err(ServerError)
    else if files.Some? && files.value.coverImage then Err(ServerError)
    else
      var avatarPath := if files.None? then None else files.value.avatar;
      if !Truthy(avatarPath) then Err(BadRequest)
      else
        var avatar := UploadOnCloud(avatarPath, avatarAnswer);
        if avatar.None? then Err(BadRequest)
        else if fullname.None? || email.None? || password.None? || username.None? then Err(ServerError)
        else if avatar.value.url == "" then Err(ServerError)
        else
          assert forall j :: 0 <= j < |users| ==> !Taken(username, email)(users[j]);
          Ok(User(newId, Normalize(username.value), Normalize(email.value), Trim(fullname.value),
                  avatar.value.url, "", [], bcrypt.hash(password.value, SaltRounds), ""))
  }

  /** A registered user is in normal form and clashes with no existing user, so the store stays valid. */
  lemma RegisterKeepsValid(
    s: State, fullname: Option<string>, email: Option<string>, password: Option<string>, username: Option<string>,
    files: Option<RegisterFiles>, avatarAnswer: Option<Uploaded>, bcrypt: Bcrypt, newId: Id)
    requires ValidState(s) && KeyAbsent(s.users, UserKey, newId)
    requires Register(s.users, fullname, email, password, username, files, avatarAnswer, bcrypt, newId).Ok?
    ensures ValidState(s.(users := s.users + [Register(s.users, fullname, email, password, username, files, avatarAnswer, bcrypt, newId).value]))
  {
    var u := Register(s.users, fullname, email, password, username, files, avatarAnswer, bcrypt, newId).value;
    NormalizeSpec(username.value);
    NormalizeSpec(email.value);
    TrimmedSpec(fullname.value);
    UniqueByAppend(s.users, UserKey, u);
    UniqueByAppend(s.users, UsernameKey, u);
    UniqueByAppend(s.users, EmailKey, u);
    var t := s.users + [u];
    assert forall j :: 0 <= j < |t| ==> UserNormal(t[j]) && NoDuplicates(t[j].watchHistory) by {
      forall j | 0 <= j < |t| ensures UserNormal(t[j]) && NoDuplicates(t[j].watchHistory) {
        assert j < |s.users| ==> t[j] == s.users[j];
      }
    }
  }

  /** `registerUser`: stores the user `Register` builds and answers it without password and refresh token (201). */
  method RegisterUser(
    db: Db, fullname: Option<string>, email: Option<string>, password: Option<string>, username: Option<string>,
    files: Option<RegisterFiles>, avatarAnswer: Option<Uploaded>, bcrypt: Bcrypt, newId: Id)
    returns (r: Outcome<PublicUser>)
    requires db.Valid() && KeyAbsent(db.users, UserKey, newId)
    modifies db
    ensures db.Valid()
    ensures var made := Register(old(db.users), fullname, email, password, username, files, avatarAnswer, bcrypt, newId);
      && (made.Err? ==> r == Err(made.status) && db.Snapshot() == old(db.Snapshot()))
      && (made.Ok? ==> r == Ok(Public(made.value)) && db.Snapshot() == old(db.Snapshot()).(users := old(db.users) + [made.value]))
  {
    var made := Register(db.users, fullname, email, password, username, files, avatarAnswer, bcrypt, newId);
    if made.Err? {
      return Err(made.status);
    }
    var before := db.Snapshot();
    RegisterKeepsValid(before, fullname, email, password, username, files, avatarAnswer, bcrypt, newId);
    db.users := db.users + [made.value];
    assert db.Snapshot() == before.(users := before.users + [made.value]);
    r := Ok(Public(made.value));
  }

  // ---------------------------------------------------------------------
  // loginUser

  datatype LoggedIn = LoggedIn(user: PublicUser, accessToken: string, refreshToken: string)

  /**
   * `loginUser`: 400 without username and email; 404 when no user has
   * either; a missing password throws in the check (500); a wrong one is
   * 401; otherwise tokens are generated and stored, and the user and both
   * tokens are answered.
   */
  method LoginUser(db: Db, username: Option<string>, password: Option<string>, email: Option<string>, bcrypt: Bcrypt, jwt: Jwt)
    returns (r: Outcome<LoggedIn>)
    requires db.Valid()
    modifies db
    ensures db.Valid()
    ensures !Truthy(username) && !Truthy(email) ==> r == Err(BadRequest)
    ensures Truthy(username) || Truthy(email) ==>
      match Find(old(db.users), Taken(username, email))
      case None => r == Err(NotFound)
      case Some(k) =>
        var u := old(db.users)[k];
        if password.None? then r == Err(ServerError)
        else if !bcrypt.compare(password.value, u.password) then r == Err(Unauthorized)
        else
          && r == Ok(LoggedIn(Public(u), AccessToken(u, jwt), RefreshToken(u, jwt)))
          && db.Snapshot() == old(db.Snapshot()).(users := old(db.users)[k := WithRefreshToken(u, jwt)])
          && db.users[k].refreshToken == r.value.refreshToken
    ensures r.Err? ==> db.Snapshot() == old(db.Snapshot())
  {
    if !Truthy(username) && !Truthy(email) {
      return Err(BadRequest);
    }
    var found := Find(db.users, Taken(username, email));
    if found.None? {
      return Err(NotFound);
    }
    var k := found.value;
    var u := db.users[k];
    var valid := IsPasswordCorrect(password, Some(u.password), bcrypt);
    if valid.Err? {
      return Err(valid.status);
    }
    if !valid.value {
      return Err(Unauthorized);
    }
    var self := FindUser(db.users, u.id);
    UniqueFind(db.users, UserKey, self.value, k);
    var tokens := GenerateTokens(db, u.id, jwt);
    r := Ok(LoggedIn(Public(db.users[k]), tokens.value.accessToken, tokens.value.refreshToken));
  }

  // ---------------------------------------------------------------------
  // logOutUser

  /** The users after `$set: {refreshToken: ""}` on the requester, if present. */
  function LogOut(users: seq<User>, me: Id): (r: seq<User>)
    ensures |r| == |users|
    ensures forall j :: 0 <= j < |users| ==> r[j] == users[j].(refreshToken := r[j].refreshToken)
    ensures forall j :: 0 <= j < |users| && users[j].id != me ==> r[j] == users[j]
    ensures FindUser(users, me).Some? ==> r[FindUser(users, me).value].refreshToken == ""
  {
    match FindUser(users, me)
    case None => users
    case Some(k) => users[k := users[k].(refreshToken := "")]
  }

  /**
   * Logging out clears the requester's refresh token whatever it was,
   * touches no other user, keeps the store valid, and a second logout
   * changes nothing.
   */
  lemma LogOutSpec(s: State, me: Id)
    requires ValidState(s)
    ensures var users := LogOut(s.users, me);
      && (forall j :: 0 <= j < |users| && users[j].id == me ==> users[j].refreshToken == "")
      && (forall j :: 0 <= j < |users| && s.users[j].id != me ==> users[j] == s.users[j])
      && LogOut(users, me) == users
      && ValidState(s.(users := users))
  {
    var users := LogOut(s.users, me);
    match FindUser(s.users, me)
    case None =>
      assert FindUser(users, me).None?;
    case Some(k) =>
      var cleared := s.users[k].(refreshToken := "");
      assert users == s.users[k := cleared];
      ReplaceUserKeepsValid(s, k, cleared);
      assert users[k].id == me;
      var k2 := FindUser(users, me).value;
      UniqueFind(users, UserKey, k2, k);
      assert users[k := users[k].(refreshToken := "")] == users;
  }

  /** `logOutUser`: clears the requester's stored refresh token. */
  method LogOutUser(db: Db, me: Id)
    requires db.Valid()
    modifies db
    ensures db.Valid()
    ensures db.Snapshot() == old(db.Snapshot()).(users := LogOut(old(db.users), me))
  {
    LogOutSpec(db.Snapshot(), me);
    db.users := LogOut(db.users, me);
  }

  // ---------------------------------------------------------------------
  // refreshAccessToken

  /** The refresh token presented: the cookie's, else the body's. */
  function IncomingRefreshToken(cookieToken: Option<string>, bodyToken: Option<string>): Option<string> {
    if Truthy(cookieToken) then cookieToken else bodyToken
  }

  /**
   * The checks of `refreshAccessToken`, all failing with 401: a token must
   * be presented, verify under the refresh secret, name an existing user and
   * be that user's stored token. The answer is the user's position.
   */
  function RefreshCheck(users: seq<User>, incoming: Option<string>, jwt: Jwt): (r: Outcome<nat>)
    ensures r.Err? ==> r.status == Unauthorized
    ensures r.Ok? <==>
      && Truthy(incoming)
      && jwt.verify(incoming.value, RefreshTokenSecret).Some?
      && FindUser(users, jwt.verify(incoming.value, RefreshTokenSecret).value.id).Some?
      && users[FindUser(users, jwt.verify(incoming.value, RefreshTokenSecret).value.id).value].refreshToken == incoming.value
    ensures r.Ok? ==> r.value < |users| && users[r.value].refreshToken == incoming.value
  {
    if !Truthy(incoming) then Err(Unauthorized)
    else match jwt.verify(incoming.value, RefreshTokenSecret)
      case None => Err(Unauthorized)
      case Some(claims) =>
        match FindUser(users, claims.id)
        case None => Err(Unauthorized)
        case Some(k) => if incoming.value != users[k].refreshToken then Err(Unauthorized) else Ok(k)
  }

  /**
   * Refresh tokens are single-use: once a refresh has stored a new token
   * that differs from the one presented, presenting the old one again is
   * rejected.
   */
  lemma UsedRefreshTokenRejected(users: seq<User>, incoming: Option<string>, jwt: Jwt)
    requires UniqueBy(users, UserKey)
    requires RefreshCheck(users, incoming, jwt).Ok?
    requires RefreshToken(users[RefreshCheck(users, incoming, jwt).value], jwt) != incoming.value
    ensures var k := RefreshCheck(users, incoming, jwt).value;
      RefreshCheck(users[k := WithRefreshToken(users[k], jwt)], incoming, jwt).Err?
  {
    var k := RefreshCheck(users, incoming, jwt).value;
    var after := users[k := WithRefreshToken(users[k], jwt)];
    var id := jwt.verify(incoming.value, RefreshTokenSecret).value.id;
    UniqueByUpdate(users, UserKey, k, after[k]);
    var k2 := FindUser(after, id).value;
    UniqueFind(after, UserKey, k2, k);
  }

  /** The answer as the intended code builds it: both new tokens. */
  datatype Refreshed = Refreshed(accessToken: string, refreshToken: string)

  /**
   * The refresh-token cookie as written: the destructured `NewRefreshToken`
   * is undefined, and Express turns it into the text "undefined".
   */
  function RefreshCookieAsWritten(tokens: Tokens): string {
    "undefined"
  }

  /**
   * As written, the client is handed a cookie that is not the token now
   * stored, so (unless some user stores that very text) its next refresh
   * is rejected: one refresh per login.
   */
  lemma RefreshCookieAsWrittenRejected(users: seq<User>, incoming: Option<string>, jwt: Jwt)
    requires RefreshCheck(users, incoming, jwt).Ok?
    requires forall j :: 0 <= j < |users| ==> users[j].refreshToken != "undefined"
    requires RefreshToken(users[RefreshCheck(users, incoming, jwt).value], jwt) != "undefined"
    ensures var k := RefreshCheck(users, incoming, jwt).value;
      var tokens := Tokens(AccessToken(users[k], jwt), RefreshToken(users[k], jwt));
      var after := users[k := WithRefreshToken(users[k], jwt)];
      && RefreshCookieAsWritten(tokens) != after[k].refreshToken
      && RefreshCheck(after, Some(RefreshCookieAsWritten(tokens)), jwt).Err?
  {
    var k := RefreshCheck(users, incoming, jwt).value;
    var after := users[k := WithRefreshToken(users[k], jwt)];
    assert forall j :: 0 <= j < |after| ==> after[j].refreshToken != "undefined" by {
      forall j | 0 <= j < |after| ensures after[j].refreshToken != "undefined" {
        if j != k {
          assert after[j] == users[j];
        }
      }
    }
  }

  /**
   * `refreshAccessToken`, with the new refresh token answered and set as
   * the cookie: every failure is 401; on success the user's stored refresh
   * token is rotated and the answer carries the stored one.
   */
  method RefreshAccessToken(db: Db, cookieToken: Option<string>, bodyToken: Option<string>, jwt: Jwt)
    returns (r: Outcome<Refreshed>)
    requires db.Valid()
    modifies db
    ensures db.Valid()
    ensures match RefreshCheck(old(db.users), IncomingRefreshToken(cookieToken, bodyToken), jwt)
      case Err(_) => r == Err(Unauthorized) && db.Snapshot() == old(db.Snapshot())
      case Ok(k) =>
        var u := old(db.users)[k];
        && r == Ok(Refreshed(AccessToken(u, jwt), RefreshToken(u, jwt)))
        && db.Snapshot() == old(db.Snapshot()).(users := old(db.users)[k := WithRefreshToken(u, jwt)])
        && db.users[k].refreshToken == r.value.refreshToken
  {
    var checked := RefreshCheck(db.users, IncomingRefreshToken(cookieToken, bodyToken), jwt);
    if checked.Err? {
      return Err(Unauthorized);
    }
    var k := checked.value;
    var u := db.users[k];
    var self := FindUser(db.users, u.id);
    UniqueFind(db.users, UserKey, self.value, k);
    var tokens := GenerateTokens(db, u.id, jwt);
    r := Ok(Refreshed(tokens.value.accessToken, tokens.value.refreshToken));
  }

  // ---------------------------------------------------------------------
  // changeUserPassword

  /**
   * `changeUserPassword`: a missing requester, or a missing old password,
   * throws (500); a wrong old password is 400 and changes nothing. Otherwise
   * the answer is 200 while the save runs: the new password is stored
   * hashed, and a missing one makes the hook reject the save, so the
   * password stays.
   */
  method ChangeUserPassword(db: Db, me: Id, oldPassword: Option<string>, newPassword: Option<string>, bcrypt: Bcrypt)
    returns (r: Outcome<()>)
    requires db.Valid()
    modifies db
    ensures db.Valid()
    ensures match FindUser(old(db.users), me)
      case None => r == Err(ServerError)
      case Some(k) =>
        var u := old(db.users)[k];
        if oldPassword.None? then r == Err(ServerError)
        else if !bcrypt.compare(oldPassword.value, u.password) then r == Err(BadRequest)
        else
          && r == Ok(())
          && db.Snapshot() == old(db.Snapshot()).(users :=
               if newPassword.None? then old(db.users)
               else old(db.users)[k := u.(password := bcrypt.hash(newPassword.value, SaltRounds))])
    ensures r.Err? ==> db.Snapshot() == old(db.Snapshot())
  {
    var found := FindUser(db.users, me);
    if found.None? {
      return Err(ServerError);
    }
    var k := found.value;
    var u := db.users[k];
    var correct := IsPasswordCorrect(oldPassword, Some(u.password), bcrypt);
    if correct.Err? {
      return Err(correct.status);
    }
    if !correct.value {
      return Err(BadRequest);
    }
    var saved := PreSave(Assigned(newPassword), bcrypt);
    if saved.Some? {
      ReplaceUserKeepsValid(db.Snapshot(), k, u.(password := saved.value));
      db.users := db.users[k := u.(password := saved.value)];
    }
    r := Ok(());
  }

  // ---------------------------------------------------------------------
  // updateAccount

  /** Another user already holding the email the update would store. */
  function EmailHeldByOther(email: string, me: Id): User -> bool {
    (x: User) => x.email == email && x.id != me
  }

  /**
   * `updateAccount`: 401 without full name or email; with no such user the
   * update finds nothing and answers null; an email another user holds
   * violates the unique index (500); otherwise the setters store the
   * trimmed full name and the normalised email, and the updated user is
   * answered without password and refresh token.
   */
  method UpdateAccount(db: Db, me: Id, fullname: Option<string>, email: Option<string>)
    returns (r: Outcome<Option<PublicUser>>)
    requires db.Valid()
    modifies db
    ensures db.Valid()
    ensures !Truthy(fullname) || !Truthy(email) ==> r == Err(Unauthorized)
    ensures Truthy(fullname) && Truthy(email) ==>
      match FindUser(old(db.users), me)
      case None => r == Ok(None)
      case Some(k) =>
        if Find(old(db.users), EmailHeldByOther(Normalize(email.value), me)).Some? then r == Err(ServerError)
        else
          var u := old(db.users)[k].(fullname := Trim(fullname.value), email := Normalize(email.value));
          && r == Ok(Some(Public(u)))
          && db.Snapshot() == old(db.Snapshot()).(users := old(db.users)[k := u])
    ensures r.Err? || r == Ok(None) ==> db.Snapshot() == old(db.Snapshot())
  {
    if !Truthy(fullname) || !Truthy(email) {
      return Err(Unauthorized);
    }
    var found := FindUser(db.users, me);
    if found.None? {
      return Ok(None);
    }
    var k := found.value;
    var e := Normalize(email.value);
    if Find(db.users, EmailHeldByOther(e, me)).Some? {
      return Err(ServerError);
    }
    var u := db.users[k].(fullname := Trim(fullname.value), email := e);
    NormalizeSpec(email.value);
    TrimmedSpec(fullname.value);
    forall j | 0 <= j < |db.users| && j != k
      ensures db.users[j].username != u.username && db.users[j].email != u.email
    {
      assert !EmailHeldByOther(e, me)(db.users[j]);
    }
    ReplaceUserKeepsValid(db.Snapshot(), k, u);
    db.users := db.users[k := u];
    r := Ok(Some(Public(u)));
  }
}
