/** The JWT middleware's own logic: its configuration constants, the callbacks
    that build and read the token claims, the login authenticator, and the
    lookups of the authenticated user in the request context. Token signing,
    verification and refresh belong to the JWT library and are not modelled. */
module AuthMiddleware {
  import opened Wrappers
  import opened UserModel
  import opened Store
  import opened Bcrypt

  /** The context key (and claim name) the identity is stored under. */
  const IdentityKey := "user_id"
  /** The context key the JWT library stores the raw payload under. */
  const PayloadKey := "JWT_PAYLOAD"
  const UsernameClaim := "username"

  /** Seven days, in seconds. */
  const TokenExpiration := 7 * 24 * 60 * 60

  datatype Config = Config(realm: string, identityKey: string, timeout: int, maxRefresh: int)

  /** The middleware configuration: token lifetime and refresh window are both the expiration. */
  const JwtConfig := Config("RemindGo", IdentityKey, TokenExpiration, TokenExpiration)

  lemma TokenLifetimeIsSevenDays()
    ensures JwtConfig.timeout == JwtConfig.maxRefresh == 604800
    ensures JwtConfig.identityKey == IdentityKey
  {
  }

  /** The identity kept in the token and the request context. */
  datatype JWTUser = JWTUser(userId: int, username: string)

  /** A value held under a context key: a `*JWTUser`, or anything else. */
  datatype CtxValue = UserValue(user: JWTUser) | OtherValue

  /** The request context's key-value store. */
  type Context = map<string, CtxValue>

  /** A claim value: the numeric id or a string. */
  datatype ClaimValue = NumberClaim(number: int) | TextClaim(text: string)

  type Claims = map<string, ClaimValue>

  /** `PayloadFunc`: a `*JWTUser` becomes exactly the claims `{user_id, username}`; anything else no claims. */
  function PayloadFunc(data: CtxValue): (claims: Claims)
    ensures data.OtherValue? ==> claims == map[]
    ensures data.UserValue? ==> claims.Keys == {IdentityKey, UsernameClaim}
    ensures data.UserValue? ==>
      claims[IdentityKey] == NumberClaim(data.user.userId) && claims[UsernameClaim] == TextClaim(data.user.username)
  {
    match data
    case UserValue(u) => map[IdentityKey := NumberClaim(u.userId), UsernameClaim := TextClaim(u.username)]
    case OtherValue => map[]
  }

  /** `IdentityHandler`: read the id and username back from the claims; a
      missing claim or one of the wrong kind reads as 0 or "". */
  function IdentityHandler(claims: Claims): (u: JWTUser)
    ensures IdentityKey in claims && claims[IdentityKey].NumberClaim? ==> u.userId == claims[IdentityKey].number
    ensures !(IdentityKey in claims && claims[IdentityKey].NumberClaim?) ==> u.userId == 0
    ensures UsernameClaim in claims && claims[UsernameClaim].TextClaim? ==> u.username == claims[UsernameClaim].text
    ensures !(UsernameClaim in claims && claims[UsernameClaim].TextClaim?) ==> u.username == ""
  {
    var id := if IdentityKey in claims && claims[IdentityKey].NumberClaim? then claims[IdentityKey].number else 0;
    var name := if UsernameClaim in claims && claims[UsernameClaim].TextClaim? then claims[UsernameClaim].text else "";
    JWTUser(id, name)
  }

  /** The identity read back from a token is the identity written into it. */
  lemma IdentityRoundTrip(u: JWTUser)
    ensures IdentityHandler(PayloadFunc(UserValue(u))) == u
  {
  }

  /** The errors the authenticator reports to the JWT library. */
  datatype JwtError = ErrMissingLoginValues | ErrFailedAuthentication

  /** What the authenticator hands back: an identity, or an error. */
  datatype AuthOutcome = Authenticated(user: JWTUser) | Rejected(err: JwtError)

  /** `Authenticator`: bind and validate the login body, find the first user
      whose username or email is the identifier, and check the password.
      `bound` is the binding outcome of the request body. */
  function Authenticator(bound: Result<LoginRequest>, db: Db, hasher: Hasher): (r: AuthOutcome)
    reads db
    ensures (bound.Err? || !ValidLoginRequest(bound.value)) <==> r == Rejected(ErrMissingLoginValues)
    ensures r.Authenticated? ==> exists id :: (
      && id in db.users
      && (db.users[id].username == bound.value.username || db.users[id].email == bound.value.username)
      && hasher.compare(db.users[id].passwordHash, bound.value.password)
      && r.user == JWTUser(db.users[id].id, db.users[id].username))
    ensures bound.Ok? && ValidLoginRequest(bound.value)
      && (forall id :: id in db.users ==>
            db.users[id].username != bound.value.username && db.users[id].email != bound.value.username)
      ==> r == Rejected(ErrFailedAuthentication)
  {
    if bound.Err? || !ValidLoginRequest(bound.value) then Rejected(ErrMissingLoginValues)
    else
      var req := bound.value;
      var found := FirstUser(db.users, (u: User) => u.username == req.username || u.email == req.username);
      if found.None? then Rejected(ErrFailedAuthentication)
      else if !hasher.compare(found.value.passwordHash, req.password) then Rejected(ErrFailedAuthentication)
      else Authenticated(JWTUser(found.value.id, found.value.username))
  }

  /** `GetUserID`: the identity under "user_id"; only when that key is absent,
      the identity under "JWT_PAYLOAD". A value of another kind under
      "user_id" is an error, with no fallback. */
  function GetUserID(ctx: Context): (r: Result<int>)
    ensures IdentityKey in ctx && ctx[IdentityKey].UserValue? ==> r == Ok(ctx[IdentityKey].user.userId)
    ensures IdentityKey in ctx && ctx[IdentityKey].OtherValue? ==> r.Err?
    ensures IdentityKey !in ctx ==>
      (r.Ok? <==> PayloadKey in ctx && ctx[PayloadKey].UserValue?)
    ensures IdentityKey !in ctx && r.Ok? ==> r.value == ctx[PayloadKey].user.userId
    ensures r.Err? ==> r.msg == "未找到用户ID"
  {
    if IdentityKey !in ctx then
      if PayloadKey in ctx && ctx[PayloadKey].UserValue? then Ok(ctx[PayloadKey].user.userId)
      else Err("未找到用户ID")
    else if ctx[IdentityKey].UserValue? then Ok(ctx[IdentityKey].user.userId)
    else Err("未找到用户ID")
  }

  /** `GetUsername`: the same lookup order and failures as `GetUserID`. */
  function GetUsername(ctx: Context): (r: Result<string>)
    ensures IdentityKey in ctx && ctx[IdentityKey].UserValue? ==> r == Ok(ctx[IdentityKey].user.username)
    ensures IdentityKey in ctx && ctx[IdentityKey].OtherValue? ==> r.Err?
    ensures IdentityKey !in ctx ==>
      (r.Ok? <==> PayloadKey in ctx && ctx[PayloadKey].UserValue?)
    ensures IdentityKey !in ctx && r.Ok? ==> r.value == ctx[PayloadKey].user.username
    ensures r.Err? ==> r.msg == "未找到用户名"
  {
    if IdentityKey !in ctx then
      if PayloadKey in ctx && ctx[PayloadKey].UserValue? then Ok(ctx[PayloadKey].user.username)
      else Err("未找到用户名")
    else if ctx[IdentityKey].UserValue? then Ok(ctx[IdentityKey].user.username)
    else Err("未找到用户名")
  }

  /** Both lookups succeed on the same contexts and read the same stored identity. */
  lemma LookupsAgree(ctx: Context)
    ensures GetUserID(ctx).Ok? <==> GetUsername(ctx).Ok?
    ensures GetUserID(ctx).Ok? ==> exists k :: (
      && k in ctx && ctx[k].UserValue?
      && JWTUser(GetUserID(ctx).value, GetUsername(ctx).value) == ctx[k].user)
  {
    if GetUserID(ctx).Ok? {
      var k := if IdentityKey in ctx then IdentityKey else PayloadKey;
      assert k in ctx && ctx[k].UserValue? && JWTUser(GetUserID(ctx).value, GetUsername(ctx).value) == ctx[k].user;
    }
  }

  /** A context holding the identity the authenticator produced yields that user's id. */
  lemma IdentityReachesHandlers(u: JWTUser, rest: Context)
    ensures GetUserID(rest[IdentityKey := UserValue(u)]) == Ok(u.userId)
    ensures GetUserID(rest - {IdentityKey}) ==
      (if PayloadKey in rest && rest[PayloadKey].UserValue? then Ok(rest[PayloadKey].user.userId) else Err("未找到用户ID"))
  {
  }
}
