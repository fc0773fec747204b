/** Accounts and sessions: registration, login with a signed session token,
    logout, and the token check every authenticated request goes through.
    Password hashing and token signing are not modelled; they enter as
    parameters: `hashed` is what the hasher made of the password (`None`
    when it failed), `matches(hash, password)` is the hasher's comparison,
    `sign(userId, issuedAt)` the signer (`None` when it failed) and
    `subject(token, now)` the subject of a token whose signature and expiry
    check out at `now` (`None` otherwise). `down` is the set of statements the
    database rejects during the call. */
module UserService {
  import opened Wrappers
  import opened Text
  import opened Models
  import opened Rows
  import opened Store
  import opened UserRepository
  import EmailService

  /** Seconds a session lasts. */
  const SessionLifetime: int := 86400

  /** No two accounts share a username, and no two share an address. */
  predicate UniqueAccounts(us: seq<User>)
  {
    forall i, j :: 0 <= i < j < |us| ==> us[i].username != us[j].username && us[i].email != us[j].email
  }

  // ---------------------------------------------------------------------
  // Registration

  /** The checks of `RegisterUser`: the username first, then the address.
      `None` when both are free. */
  function RegistrationVerdict(us: seq<User>, req: UserRegisterRequest, down: set<Call>): (r: Option<Error>)
    ensures r == Some(Storage(UserByName)) <==> UserByName in down
    ensures r == Some(UsernameTaken) <==> UserByName !in down && FindUserByName(us, req.username).Some?
    ensures r == Some(Storage(UserByEmail)) <==>
      UserByName !in down && FindUserByName(us, req.username).None? && UserByEmail in down
    ensures r == Some(EmailTaken) <==>
      UserByName !in down && FindUserByName(us, req.username).None?
      && UserByEmail !in down && FindUserByEmail(us, req.email).Some?
    ensures r.None? <==>
      UserByName !in down && UserByEmail !in down
      && FindUserByName(us, req.username).None? && FindUserByEmail(us, req.email).None?
  {
    if UserByName in down then Some(Storage(UserByName))
    else if FindUserByName(us, req.username).Some? then Some(UsernameTaken)
    else if UserByEmail in down then Some(Storage(UserByEmail))
    else if FindUserByEmail(us, req.email).Some? then Some(EmailTaken)
    else None
  }

  /** An account that passed the checks can be added without two accounts
      sharing a username or an address. */
  lemma RegistrationKeepsUnique(us: seq<User>, req: UserRegisterRequest, down: set<Call>, u: User)
    requires UniqueAccounts(us)
    requires RegistrationVerdict(us, req, down).None?
    requires u.username == req.username && u.email == req.email
    ensures UniqueAccounts(us + [u])
  {
    assert forall i :: 0 <= i < |us| ==> (us + [u])[i] == us[i];
  }

  /** The checks as the service runs them; it writes nothing. */
  method CheckRegistration(db: Database, req: UserRegisterRequest, down: set<Call>) returns (r: Option<Error>)
    ensures r == RegistrationVerdict(db.users, req, down)
  {
    var byName := GetUserByUsername(db, req.username, UserByName !in down);
    if byName.Err? { return Some(byName.error); }
    if byName.value.Some? { return Some(UsernameTaken); }

    var byEmail := GetUserByEmail(db, req.email, UserByEmail !in down);
    if byEmail.Err? { return Some(byEmail.error); }
    if byEmail.value.Some? { return Some(EmailTaken); }
    return None;
  }

  /** Creates an unverified account holding the password's hash, then asks
      for a verification code; a failure to send the code does not fail the
      registration. The account comes back without its password. `failsAt`
      is passed on to the code generator. */
  method RegisterUser(db: Database, req: UserRegisterRequest, hashed: Option<string>, failsAt: nat, down: set<Call>)
    returns (r: Result<User, Error>)
    requires db.UsersValid() && db.VerificationsValid()
    modifies db`users, db`nextUserId, db`verifications, db`nextVerificationId
    ensures db.UsersValid() && db.VerificationsValid()
    ensures UniqueAccounts(old(db.users)) ==> UniqueAccounts(db.users)
    ensures RegistrationVerdict(old(db.users), req, down).Some? || hashed.None? || UserInsert in down ==>
      (r == Err(if RegistrationVerdict(old(db.users), req, down).Some?
                then RegistrationVerdict(old(db.users), req, down).value
                else if hashed.None? then HashFailed else Storage(UserInsert))
       && db.users == old(db.users) && db.nextUserId == old(db.nextUserId)
       && db.verifications == old(db.verifications) && db.nextVerificationId == old(db.nextVerificationId))
    ensures RegistrationVerdict(old(db.users), req, down).None? && hashed.Some? && UserInsert !in down ==>
      (var u := User(old(db.nextUserId), req.username, req.email, hashed.value, false);
       db.users == old(db.users) + [u] && db.nextUserId == old(db.nextUserId) + 1 && r == Ok(u.(password := ""))
       && (failsAt < EmailService.OtpDigits || VerificationInsert in down ==>
             db.verifications == old(db.verifications) && db.nextVerificationId == old(db.nextVerificationId))
       && (failsAt >= EmailService.OtpDigits && VerificationInsert !in down ==>
             |db.verifications| == |old(db.verifications)| + 1
             && db.verifications[..|old(db.verifications)|] == old(db.verifications)
             && EmailService.Issued(db.verifications[|old(db.verifications)|], old(db.nextVerificationId),
                                    u.id, req.email, db.now)))
  {
    var refused := CheckRegistration(db, req, down);
    if refused.Some? { return Err(refused.value); }
    if hashed.None? { return Err(HashFailed); }

    if UniqueAccounts(db.users) {
      RegistrationKeepsUnique(db.users, req, down, User(db.nextUserId, req.username, req.email, hashed.value, false));
    }
    var created := CreateUser(db, User(0, req.username, req.email, hashed.value, false), UserInsert !in down);
    if created.Err? { return Err(created.error); }
    var user := created.value;

    var _ := EmailService.SendOTP(db, user.id, user.email, user.username, failsAt, down);
    return Ok(user.(password := ""));
  }

  // ---------------------------------------------------------------------
  // Login and logout

  /** The checks of `LoginUser`: the account when the username exists and the
      password matches its hash. An unknown username and a wrong password
      give the same error. */
  function LoginVerdict(us: seq<User>, req: UserLoginRequest, matches: (string, string) -> bool, down: set<Call>)
    : (r: Result<User, Error>)
    ensures r == Err(Storage(UserByName)) <==> UserByName in down
    ensures r == Err(InvalidCredentials) <==>
      UserByName !in down
      && (FindUserByName(us, req.username).None?
          || !matches(FindUserByName(us, req.username).value.password, req.password))
    ensures r.Ok? <==>
      UserByName !in down && FindUserByName(us, req.username).Some?
      && matches(FindUserByName(us, req.username).value.password, req.password)
    ensures r.Ok? ==> Some(r.value) == FindUserByName(us, req.username)
  {
    if UserByName in down then Err(Storage(UserByName))
    else match FindUserByName(us, req.username)
      case None => Err(InvalidCredentials)
      case Some(u) => if matches(u.password, req.password) then Ok(u) else Err(InvalidCredentials)
  }

  method CheckLogin(db: Database, req: UserLoginRequest, matches: (string, string) -> bool, down: set<Call>)
    returns (r: Result<User, Error>)
    ensures r == LoginVerdict(db.users, req, matches, down)
  {
    var found := GetUserByUsername(db, req.username, UserByName !in down);
    if found.Err? { return Err(found.error); }
    if found.value.None? { return Err(InvalidCredentials); }
    var user := found.value.value;
    if !matches(user.password, req.password) { return Err(InvalidCredentials); }
    return Ok(user);
  }

  /** Signs a token for the account and stores a session for it that
      expires `SessionLifetime` seconds from now. */
  method LoginUser(db: Database, req: UserLoginRequest, matches: (string, string) -> bool,
                   sign: (int, int) -> Option<string>, down: set<Call>)
    returns (r: Result<UserLoginResponse, Error>)
    requires db.SessionsValid()
    modifies db`sessions, db`nextSessionId
    ensures db.SessionsValid()
    ensures var c := LoginVerdict(db.users, req, matches, down);
      c.Err? ==> (r == Err(c.error) && db.sessions == old(db.sessions))
    ensures var c := LoginVerdict(db.users, req, matches, down);
      c.Ok? && sign(c.value.id, db.now).None? ==> (r == Err(TokenSigningFailed) && db.sessions == old(db.sessions))
    ensures var c := LoginVerdict(db.users, req, matches, down);
      c.Ok? && sign(c.value.id, db.now).Some? && SessionInsert in down ==>
      (r == Err(Storage(SessionInsert)) && db.sessions == old(db.sessions))
    ensures var c := LoginVerdict(db.users, req, matches, down);
      c.Ok? && sign(c.value.id, db.now).Some? && SessionInsert !in down ==>
      (var token := sign(c.value.id, db.now).value;
       db.sessions == old(db.sessions)
         + [UserSession(old(db.nextSessionId), c.value.id, token, db.now, db.now + SessionLifetime)]
       && r == Ok(UserLoginResponse(c.value.id, c.value.username, c.value.email, token)))
  {
    var checked := CheckLogin(db, req, matches, down);
    if checked.Err? { return Err(checked.error); }
    var user := checked.value;

    var token := sign(user.id, db.now);
    if token.None? { return Err(TokenSigningFailed); }

    var session := UserSession(0, user.id, token.value, 0, db.now + SessionLifetime);
    var saved := CreateSession(db, session, SessionInsert !in down);
    if saved.Err? { return Err(saved.error); }

    return Ok(UserLoginResponse(user.id, user.username, user.email, token.value));
  }

  /** Deletes the sessions holding the token; an unknown token is no error. */
  method LogoutUser(db: Database, token: string, down: set<Call>) returns (err: Option<Error>)
    requires db.SessionsValid()
    modifies db`sessions
    ensures db.SessionsValid()
    ensures SessionDelete !in down ==> err == None && db.sessions == WithoutToken(old(db.sessions), token)
    ensures SessionDelete in down ==> err == Some(Storage(SessionDelete)) && db.sessions == old(db.sessions)
  {
    err := DeleteSession(db, token, SessionDelete !in down);
  }

  // ---------------------------------------------------------------------
  // Checking a token

  /** The checks of `VerifyToken`, in the order the service runs them: the
      stored session first, then the token itself, then its subject read as a
      decimal id. */
  function TokenVerdict(ss: seq<UserSession>, token: string, now: int,
                        subject: (string, int) -> Option<string>, down: set<Call>)
    : (r: Result<int, Error>)
    ensures r == Err(Storage(SessionLookup)) <==> SessionLookup in down
    ensures r == Err(InvalidSession) <==> SessionLookup !in down && FindSession(ss, token).None?
    ensures r == Err(SessionExpired) <==>
      SessionLookup !in down && FindSession(ss, token).Some? && now > FindSession(ss, token).value.expiresAt
    ensures r == Err(InvalidToken) <==>
      SessionLookup !in down && FindSession(ss, token).Some? && now <= FindSession(ss, token).value.expiresAt
      && subject(token, now).None?
    ensures r == Err(InvalidSubject) <==>
      SessionLookup !in down && FindSession(ss, token).Some? && now <= FindSession(ss, token).value.expiresAt
      && subject(token, now).Some? && ScanInt(subject(token, now).value).None?
    ensures r.Ok? <==>
      SessionLookup !in down && FindSession(ss, token).Some? && now <= FindSession(ss, token).value.expiresAt
      && subject(token, now).Some? && ScanInt(subject(token, now).value).Some?
    ensures r.Ok? ==> r.value == ScanInt(subject(token, now).value).value
  {
    if SessionLookup in down then Err(Storage(SessionLookup))
    else match FindSession(ss, token)
      case None => Err(InvalidSession)
      case Some(s) =>
        if now > s.expiresAt then Err(SessionExpired)
        else match subject(token, now)
          case None => Err(InvalidToken)
          case Some(sub) =>
            match ScanInt(sub)
            case None => Err(InvalidSubject)
            case Some(id) => Ok(id)
  }

  /** The user id a request's token stands for; it writes nothing. */
  method VerifyToken(db: Database, token: string, subject: (string, int) -> Option<string>, down: set<Call>)
    returns (r: Result<int, Error>)
    ensures r == TokenVerdict(db.sessions, token, db.now, subject, down)
  {
    var found := GetSessionByToken(db, token, SessionLookup !in down);
    if found.Err? { return Err(found.error); }
    if found.value.None? { return Err(InvalidSession); }
    var session := found.value.value;
    if db.now > session.expiresAt { return Err(SessionExpired); }

    var sub := subject(token, db.now);
    if sub.None? { return Err(InvalidToken); }
    var id := ScanInt(sub.value);
    if id.None? { return Err(InvalidSubject); }
    return Ok(id.value);
  }

  /** The round trip of `LoginUser` and `VerifyToken`: a session stored for a
      token no other session holds, whose token carries the user id in
      decimal as its subject, identifies that user for as long as the session
      lasts, and is refused as expired from then on. */
  lemma LoginThenVerify(ss: seq<UserSession>, s: UserSession, now: int,
                        subject: (string, int) -> Option<string>, down: set<Call>)
    requires forall i :: 0 <= i < |ss| ==> ss[i].token != s.token
    requires SessionLookup !in down
    requires MinInt64 <= s.userId <= MaxInt64
    requires now <= s.expiresAt ==> subject(s.token, now) == Some(IntToDecimal(s.userId))
    ensures now <= s.expiresAt ==> TokenVerdict(ss + [s], s.token, now, subject, down) == Ok(s.userId)
    ensures now > s.expiresAt ==> TokenVerdict(ss + [s], s.token, now, subject, down) == Err(SessionExpired)
  {
    assert FindSession(ss + [s], s.token) == Some(s) by {
      assert (ss + [s])[|ss|] == s;
      assert forall i :: 0 <= i < |ss| ==> (ss + [s])[i] == ss[i];
    }
    ScanIntOfDecimal(s.userId);
  }

  /** After logout the token is refused as an invalid session, however valid
      its signature. */
  lemma LogoutRevokes(ss: seq<UserSession>, token: string, now: int,
                      subject: (string, int) -> Option<string>, down: set<Call>)
    requires SessionLookup !in down
    ensures TokenVerdict(WithoutToken(ss, token), token, now, subject, down) == Err(InvalidSession)
  {
    var rest := WithoutToken(ss, token);
    assert forall i :: 0 <= i < |rest| ==> rest[i].token != token;
  }

  // ---------------------------------------------------------------------
  // Looking up an account

  /** The account without its password; a missing account is `Ok(None)`. */
  method GetUserByID(db: Database, id: int, down: set<Call>) returns (r: Result<Option<User>, Error>)
    ensures UserById in down ==> r == Err(Storage(UserById))
    ensures UserById !in down ==> r.Ok? && (r.value.None? <==> FindUser(db.users, id).None?)
    ensures r.Ok? && r.value.Some? ==>
      r.value.value.password == "" && Some(r.value.value.(password := FindUser(db.users, id).value.password)) == FindUser(db.users, id)
  {
    var found := UserRepository.GetUserByID(db, id, UserById !in down);
    if found.Err? { return Err(found.error); }
    if found.value.None? { return Ok(None); }
    return Ok(Some(found.value.value.(password := "")));
  }
}
