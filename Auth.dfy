/** The authentication step in front of every protected endpoint: the
    `Authorization` header must read `Bearer <token>`, the token must pass
    the user service's check, and the request then carries the user id and
    the token in its context for the handlers to read back. Every refusal is
    answered with HTTP 401. */
module Auth {
  import opened Wrappers
  import opened Text
  import opened Models
  import opened Store
  import UserService

  /** The three refusals, by the message each sends. */
  datatype AuthFailure = MissingHeader | InvalidHeader | InvalidOrExpiredToken

  /** What a handler can find missing when it reads the context. */
  datatype ContextError = UserIdMissing | TokenMissing

  /** A request context: values of any type under string keys, of which the
      model distinguishes the two types the getters ask for. */
  datatype ContextValue = IntValue(i: int) | StringValue(s: string)

  type Context = map<string, ContextValue>

  const UserIdKey: string := "userID"
  const TokenKey: string := "token"

  /** The token in an `Authorization` header, split on single spaces: exactly
      two pieces, the first of them `Bearer`. */
  function BearerToken(header: string): (r: Result<string, AuthFailure>)
    ensures r == Err(MissingHeader) <==> header == ""
    ensures r.Ok? ==> ' ' !in r.value
  {
    if header == "" then Err(MissingHeader)
    else
      var parts := Split(header, ' ');
      if |parts| != 2 || parts[0] != "Bearer" then Err(InvalidHeader) else Ok(parts[1])
  }

  /** A header is accepted with token `t` exactly when it is `Bearer`, one
      space and `t`, and `t` holds no further space. */
  lemma BearerTokenExact(header: string, t: string)
    ensures BearerToken(header) == Ok(t) <==> header == "Bearer " + t && ' ' !in t
  {
    if header == "Bearer " + t && ' ' !in t {
      assert ' ' !in "Bearer";
      assert header == "Bearer" + [' '] + t;
      SplitNoSeparator(t, ' ');
      SplitPrefix("Bearer", t, ' ');
    }
    if BearerToken(header) == Ok(t) {
      var parts := Split(header, ' ');
      JoinSplit(header, ' ');
      assert parts == ["Bearer", t];
      assert Join(parts, ' ') == "Bearer" + [' '] + t;
    }
  }

  /** `context.WithValue` twice: the user id, then the token. */
  function WithIdentity(ctx: Context, userId: int, token: string): (r: Context)
    ensures r.Keys == ctx.Keys + {UserIdKey, TokenKey}
    ensures forall k :: k in ctx && k != UserIdKey && k != TokenKey ==> r[k] == ctx[k]
  {
    ctx[UserIdKey := IntValue(userId)][TokenKey := StringValue(token)]
  }

  /** The header check, then the user service's token check; on success the
      context the next handler runs with. */
  method Authenticate(db: Database, header: string, ctx: Context,
                      subject: (string, int) -> Option<string>, down: set<Call>)
    returns (r: Result<Context, AuthFailure>)
    ensures BearerToken(header).Err? ==> r == Err(BearerToken(header).error)
    ensures BearerToken(header).Ok? ==>
      (var verdict := UserService.TokenVerdict(db.sessions, BearerToken(header).value, db.now, subject, down);
       (verdict.Err? ==> r == Err(InvalidOrExpiredToken))
       && (verdict.Ok? ==> r == Ok(WithIdentity(ctx, verdict.value, BearerToken(header).value))))
  {
    var token := BearerToken(header);
    if token.Err? { return Err(token.error); }
    var userId := UserService.VerifyToken(db, token.value, subject, down);
    if userId.Err? { return Err(InvalidOrExpiredToken); }
    return Ok(WithIdentity(ctx, userId.value, token.value));
  }

  /** `GetUserIDFromContext`: present only when stored as an int. */
  function UserIdOf(ctx: Context): (r: Result<int, ContextError>)
    ensures r.Ok? <==> UserIdKey in ctx && ctx[UserIdKey].IntValue?
  {
    if UserIdKey in ctx && ctx[UserIdKey].IntValue? then Ok(ctx[UserIdKey].i) else Err(UserIdMissing)
  }

  /** `GetTokenFromContext`: present only when stored as a string. */
  function TokenOf(ctx: Context): (r: Result<string, ContextError>)
    ensures r.Ok? <==> TokenKey in ctx && ctx[TokenKey].StringValue?
  {
    if TokenKey in ctx && ctx[TokenKey].StringValue? then Ok(ctx[TokenKey].s) else Err(TokenMissing)
  }

  /** Handlers behind the check read back exactly the identity it stored,
      whatever the incoming context held under the same keys. */
  lemma IdentityReadBack(ctx: Context, userId: int, token: string)
    ensures UserIdOf(WithIdentity(ctx, userId, token)) == Ok(userId)
    ensures TokenOf(WithIdentity(ctx, userId, token)) == Ok(token)
  {
    assert UserIdKey != TokenKey;
  }
}
