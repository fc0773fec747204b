/** The `users` and `user_sessions` tables and the statements the user
    repository issues against them. `up` says whether the database accepts
    the call's statements; when it does not, the call reports `Storage(call)`
    and changes nothing. */
module UserRepository {
  import opened Wrappers
  import opened Models
  import opened Rows
  import opened Store

  /** `SELECT … FROM users WHERE username = $1`. */
  function FindUserByName(us: seq<User>, username: string): (r: Option<User>)
    ensures r.Some? ==> r.value in us && r.value.username == username
    ensures r.None? <==> forall i :: 0 <= i < |us| ==> us[i].username != username
  {
    First(us, (u: User) => u.username == username)
  }

  /** `SELECT … FROM users WHERE email = $1`. */
  function FindUserByEmail(us: seq<User>, email: string): (r: Option<User>)
    ensures r.Some? ==> r.value in us && r.value.email == email
    ensures r.None? <==> forall i :: 0 <= i < |us| ==> us[i].email != email
  {
    First(us, (u: User) => u.email == email)
  }

  /** `SELECT … FROM users WHERE id = $1`. */
  function FindUser(us: seq<User>, id: int): (r: Option<User>)
    ensures r.Some? ==> r.value in us && r.value.id == id
    ensures r.None? <==> forall i :: 0 <= i < |us| ==> us[i].id != id
  {
    First(us, (u: User) => u.id == id)
  }

  /** `SELECT … FROM user_sessions WHERE token = $1`. */
  function FindSession(ss: seq<UserSession>, token: string): (r: Option<UserSession>)
    ensures r.Some? ==> r.value in ss && r.value.token == token
    ensures r.None? <==> forall i :: 0 <= i < |ss| ==> ss[i].token != token
  {
    First(ss, (s: UserSession) => s.token == token)
  }

  function HasOtherToken(token: string): UserSession -> bool
  {
    (s: UserSession) => s.token != token
  }

  /** `DELETE FROM user_sessions WHERE token = $1`: every session with that
      token goes, every other one stays, in order. */
  function WithoutToken(ss: seq<UserSession>, token: string): (r: seq<UserSession>)
    ensures forall s :: multiset(r)[s] == if s.token == token then 0 else multiset(ss)[s]
    ensures forall i :: 0 <= i < |r| ==> r[i].token != token
  {
    FilterCount(ss, HasOtherToken(token));
    FilterMembers(ss, HasOtherToken(token));
    var r := Filter(ss, HasOtherToken(token));
    assert forall i :: 0 <= i < |r| ==> r[i] in r;
    r
  }

  // ---------------------------------------------------------------------
  // The repository's methods

  /** `INSERT INTO users (…, is_verified) VALUES (…, false) RETURNING id`:
      the stored user is unverified whatever the caller passed. */
  method CreateUser(db: Database, user: User, up: bool) returns (r: Result<User, Error>)
    requires db.UsersValid()
    modifies db`users, db`nextUserId
    ensures db.UsersValid()
    ensures up ==> (r == Ok(user.(id := old(db.nextUserId), isVerified := false))
      && db.users == old(db.users) + [r.value] && db.nextUserId == old(db.nextUserId) + 1)
    ensures !up ==> (r == Err(Storage(UserInsert)) && db.users == old(db.users)
      && db.nextUserId == old(db.nextUserId))
  {
    if !up { return Err(Storage(UserInsert)); }
    var row := user.(id := db.nextUserId, isVerified := false);
    KeyedAppend(db.users, UserId, db.nextUserId, row);
    db.users := db.users + [row];
    db.nextUserId := db.nextUserId + 1;
    return Ok(row);
  }

  /** A missing user is no error: `Ok(None)`. */
  method GetUserByUsername(db: Database, username: string, up: bool) returns (r: Result<Option<User>, Error>)
    ensures up ==> r == Ok(FindUserByName(db.users, username))
    ensures !up ==> r == Err(Storage(UserByName))
  {
    if !up { return Err(Storage(UserByName)); }
    return Ok(FindUserByName(db.users, username));
  }

  /** A missing user is no error: `Ok(None)`. */
  method GetUserByEmail(db: Database, email: string, up: bool) returns (r: Result<Option<User>, Error>)
    ensures up ==> r == Ok(FindUserByEmail(db.users, email))
    ensures !up ==> r == Err(Storage(UserByEmail))
  {
    if !up { return Err(Storage(UserByEmail)); }
    return Ok(FindUserByEmail(db.users, email));
  }

  /** A missing user is no error: `Ok(None)`. */
  method GetUserByID(db: Database, id: int, up: bool) returns (r: Result<Option<User>, Error>)
    ensures up ==> r == Ok(FindUser(db.users, id))
    ensures !up ==> r == Err(Storage(UserById))
  {
    if !up { return Err(Storage(UserById)); }
    return Ok(FindUser(db.users, id));
  }

  /** `INSERT INTO user_sessions (user_id, token, expires_at) … RETURNING id,
      created_at`: the session as stored, created now. */
  method CreateSession(db: Database, session: UserSession, up: bool) returns (r: Result<UserSession, Error>)
    requires db.SessionsValid()
    modifies db`sessions, db`nextSessionId
    ensures db.SessionsValid()
    ensures up ==> (r == Ok(session.(id := old(db.nextSessionId), createdAt := db.now))
      && db.sessions == old(db.sessions) + [r.value] && db.nextSessionId == old(db.nextSessionId) + 1)
    ensures !up ==> (r == Err(Storage(SessionInsert)) && db.sessions == old(db.sessions)
      && db.nextSessionId == old(db.nextSessionId))
  {
    if !up { return Err(Storage(SessionInsert)); }
    var row := session.(id := db.nextSessionId, createdAt := db.now);
    KeyedAppend(db.sessions, SessionId, db.nextSessionId, row);
    StampedAppend(db.sessions, SessionCreated, db.now, row);
    db.sessions := db.sessions + [row];
    db.nextSessionId := db.nextSessionId + 1;
    return Ok(row);
  }

  /** A missing session is no error: `Ok(None)`. */
  method GetSessionByToken(db: Database, token: string, up: bool) returns (r: Result<Option<UserSession>, Error>)
    ensures up ==> r == Ok(FindSession(db.sessions, token))
    ensures !up ==> r == Err(Storage(SessionLookup))
  {
    if !up { return Err(Storage(SessionLookup)); }
    return Ok(FindSession(db.sessions, token));
  }

  /** Deleting a token no session has is a successful no-op. */
  method DeleteSession(db: Database, token: string, up: bool) returns (err: Option<Error>)
    requires db.SessionsValid()
    modifies db`sessions
    ensures db.SessionsValid()
    ensures up ==> err == None && db.sessions == WithoutToken(old(db.sessions), token)
    ensures !up ==> err == Some(Storage(SessionDelete)) && db.sessions == old(db.sessions)
  {
    if !up { return Some(Storage(SessionDelete)); }
    FilterKeyed(db.sessions, HasOtherToken(token), SessionId, db.nextSessionId);
    FilterStamped(db.sessions, HasOtherToken(token), SessionCreated, db.now);
    db.sessions := WithoutToken(db.sessions, token);
    return None;
  }
}
