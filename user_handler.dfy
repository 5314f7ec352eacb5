/** The account HTTP handlers: registration, logout, and reading and updating
    one's profile, with the mapping from service error messages to status codes. */
module UserHandler {
  import opened Wrappers
  import opened Clock
  import opened UserModel
  import opened Store
  import opened Bcrypt
  import opened UserService
  import opened AuthMiddleware

  /** Registration failures: the two conflicts are 409, everything else 500. */
  function RegisterErrorStatus(msg: string): (status: int)
    ensures status == StatusConflict <==> msg == ErrUsernameExists || msg == ErrEmailInUse
    ensures status != StatusConflict ==> status == StatusInternalServerError
  {
    if msg == ErrUsernameExists || msg == ErrEmailInUse then StatusConflict else StatusInternalServerError
  }

  /** Profile-update failures: not found is 404, the two conflicts 409, everything else 500. */
  function UpdateErrorStatus(msg: string): (status: int)
    ensures status == StatusNotFound <==> msg == ErrUserNotFound
    ensures status == StatusConflict <==> msg == ErrUsernameTaken || msg == ErrEmailTaken
    ensures status != StatusNotFound && status != StatusConflict ==> status == StatusInternalServerError
  {
    if msg == ErrUserNotFound then StatusNotFound
    else if msg == ErrUsernameTaken || msg == ErrEmailTaken then StatusConflict
    else StatusInternalServerError
  }

  /** Each error the account service returns reaches its intended status: the
      handler compares against exactly the strings the service produces. */
  lemma ServiceErrorsGetIntendedStatus()
    ensures RegisterErrorStatus(ErrUsernameExists) == StatusConflict
    ensures RegisterErrorStatus(ErrEmailInUse) == StatusConflict
    ensures RegisterErrorStatus(ErrHashFailed) == StatusInternalServerError
    ensures UpdateErrorStatus(ErrUserNotFound) == StatusNotFound
    ensures UpdateErrorStatus(ErrUsernameTaken) == StatusConflict
    ensures UpdateErrorStatus(ErrEmailTaken) == StatusConflict
  {
  }

  class UserHandler {
    const userService: UserService

    constructor (userService: UserService)
      ensures this.userService == userService
    {
      this.userService := userService;
    }

    /** Register: 400 on a body that does not bind, 409 or 500 on a service
        error with its message, 201 with the public view of the new account. */
    method Register(bound: Result<RegisterRequest>, now: Time, hasher: Hasher) returns (resp: BaseResponse)
      requires userService.db.Valid()
      modifies userService.db
      ensures userService.db.Valid()
      ensures userService.db.todos == old(userService.db.todos)
      ensures bound.Err? ==> resp == BindFailed(bound.msg) && unchanged(userService.db)
      ensures bound.Ok? && UsernameHeld(old(userService.db.users), bound.value.username) ==>
        resp == BaseResponse(StatusConflict, ErrUsernameExists, NoData)
      ensures (bound.Ok? && !UsernameHeld(old(userService.db.users), bound.value.username)
               && EmailHeld(old(userService.db.users), bound.value.email)) ==>
        resp == BaseResponse(StatusConflict, ErrEmailInUse, NoData)
      ensures (bound.Ok? && !UsernameHeld(old(userService.db.users), bound.value.username)
               && !EmailHeld(old(userService.db.users), bound.value.email)
               && hasher.generate(bound.value.password).None?) ==>
        resp == BaseResponse(StatusInternalServerError, ErrHashFailed, NoData)
      ensures (bound.Ok? && !UsernameHeld(old(userService.db.users), bound.value.username)
               && !EmailHeld(old(userService.db.users), bound.value.email)
               && hasher.generate(bound.value.password).Some?) ==>
        resp.status == StatusCreated
      ensures resp.status != StatusCreated ==> userService.db.users == old(userService.db.users)
      ensures resp.status == StatusCreated ==>
        && bound.Ok?
        && var id := old(userService.db.nextUserId);
        && id !in old(userService.db.users) && id in userService.db.users
        && userService.db.users == old(userService.db.users)[id := userService.db.users[id]]
        && userService.db.users[id].username == bound.value.username
        && userService.db.users[id].email == bound.value.email
        && hasher.generate(bound.value.password).Some?
        && userService.db.users[id].passwordHash == hasher.generate(bound.value.password).value
        && resp == BaseResponse(StatusCreated, "注册成功，请登录", UserData(ToUserInfo(userService.db.users[id])))
    {
      if bound.Err? {
        return BindFailed(bound.msg);
      }
      var r := userService.Register(bound.value, now, hasher);
      if r.Err? {
        var status := RegisterErrorStatus(r.msg);
        return BaseResponse(status, r.msg, NoData);
      }
      resp := BaseResponse(StatusCreated, "注册成功，请登录", UserData(ToUserInfo(r.value)));
    }

    /** Logout is done by the client discarding its token: always 200, no state. */
    method Logout() returns (resp: BaseResponse)
      ensures resp == BaseResponse(StatusOK, "登出成功", NoData)
    {
      resp := BaseResponse(StatusOK, "登出成功", NoData);
    }

    /** The caller's profile: 401 without an identity, 404 for any lookup error. */
    method GetProfile(ctx: Context) returns (resp: BaseResponse)
      ensures GetUserID(ctx).Err? ==> resp == Unauthorized
      ensures GetUserID(ctx).Ok? && GetUserID(ctx).value !in userService.db.users ==>
        resp == BaseResponse(StatusNotFound, ErrUserNotFound, NoData)
      ensures GetUserID(ctx).Ok? && GetUserID(ctx).value in userService.db.users ==>
        resp == BaseResponse(StatusOK, "获取成功", UserData(ToUserInfo(userService.db.users[GetUserID(ctx).value])))
    {
      var userId := GetUserID(ctx);
      if userId.Err? {
        return Unauthorized;
      }
      var user := userService.GetUserByID(userId.value);
      if user.Err? {
        return BaseResponse(StatusNotFound, user.msg, NoData);
      }
      resp := BaseResponse(StatusOK, "获取成功", UserData(ToUserInfo(user.value)));
    }

    /** Update the caller's profile: 401, 400, then the service outcome mapped to 404, 409 or 200. */
    method UpdateProfile(ctx: Context, bound: Result<UpdateUserRequest>, now: Time) returns (resp: BaseResponse)
      requires userService.db.Valid()
      modifies userService.db
      ensures userService.db.Valid()
      ensures userService.db.todos == old(userService.db.todos)
      ensures GetUserID(ctx).Err? ==> resp == Unauthorized && unchanged(userService.db)
      ensures GetUserID(ctx).Ok? && bound.Err? ==> resp == BindFailed(bound.msg) && unchanged(userService.db)
      ensures GetUserID(ctx).Ok? && bound.Ok? && GetUserID(ctx).value !in old(userService.db.users) ==>
        resp == BaseResponse(StatusNotFound, ErrUserNotFound, NoData)
      ensures (GetUserID(ctx).Ok? && bound.Ok? && GetUserID(ctx).value in old(userService.db.users)
               && bound.value.username.Some?
               && UsernameHeldByOther(old(userService.db.users), GetUserID(ctx).value, bound.value.username.value)) ==>
        resp == BaseResponse(StatusConflict, ErrUsernameTaken, NoData)
      ensures (GetUserID(ctx).Ok? && bound.Ok? && GetUserID(ctx).value in old(userService.db.users)
               && !(bound.value.username.Some?
                    && UsernameHeldByOther(old(userService.db.users), GetUserID(ctx).value, bound.value.username.value))
               && bound.value.email.Some?
               && EmailHeldByOther(old(userService.db.users), GetUserID(ctx).value, bound.value.email.value)) ==>
        resp == BaseResponse(StatusConflict, ErrEmailTaken, NoData)
      ensures (GetUserID(ctx).Ok? && bound.Ok? && GetUserID(ctx).value in old(userService.db.users)
               && (bound.value.username.Some? ==>
                   !UsernameHeldByOther(old(userService.db.users), GetUserID(ctx).value, bound.value.username.value))
               && (bound.value.email.Some? ==>
                   !EmailHeldByOther(old(userService.db.users), GetUserID(ctx).value, bound.value.email.value))) ==>
        resp.status == StatusOK
      ensures resp.status != StatusOK ==> userService.db.users == old(userService.db.users)
      ensures resp.status == StatusOK ==>
        && GetUserID(ctx).Ok? && bound.Ok?
        && var userId := GetUserID(ctx).value;
        && userId in old(userService.db.users)
        && var u := UpdatedUser(old(userService.db.users)[userId], bound.value, now);
        && userService.db.users == old(userService.db.users)[userId := u]
        && resp == BaseResponse(StatusOK, "更新成功", UserData(ToUserInfo(u)))
    {
      var userId := GetUserID(ctx);
      if userId.Err? {
        return Unauthorized;
      }
      if bound.Err? {
        return BindFailed(bound.msg);
      }
      var r := userService.UpdateUser(userId.value, bound.value, now);
      if r.Err? {
        var status := UpdateErrorStatus(r.msg);
        return BaseResponse(status, r.msg, NoData);
      }
      resp := BaseResponse(StatusOK, "更新成功", UserData(ToUserInfo(r.value)));
    }
  }
}
