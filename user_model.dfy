/** The user record, the account request and response shapes, and the
    `{status, msg, data}` envelope every handler answers with. */
module UserModel {
  import opened Wrappers
  import opened Clock
  import opened TodoModel

  /** One row of the `users` table. The password hash is never serialised. */
  datatype User = User(
    id: int,
    username: string,
    email: string,
    passwordHash: string,
    createdAt: Time,
    updatedAt: Time)

  datatype RegisterRequest = RegisterRequest(username: string, email: string, password: string)
  datatype RegisterResponse = RegisterResponse(id: int, username: string, email: string, createdAt: int)
  datatype LoginRequest = LoginRequest(username: string, password: string)
  datatype UserInfo = UserInfo(id: int, username: string, email: string, createdAt: int)
  datatype LoginResponse = LoginResponse(token: string, user: UserInfo)

  /** Every field is optional: `None` is a field absent from the JSON body. */
  datatype UpdateUserRequest = UpdateUserRequest(username: Option<string>, email: Option<string>)

  /** A simplified `email` format: one `@` with a non-empty part on each side. */
  predicate IsEmail(s: string) {
    exists i | 0 < i < |s| - 1 :: s[i] == '@' && '@' !in s[..i] && '@' !in s[i + 1..]
  }

  /** The declared limits of a registration: username 3 to 20, an email, password 6 to 20. */
  predicate ValidRegisterRequest(r: RegisterRequest) {
    3 <= |r.username| <= 20 && IsEmail(r.email) && 6 <= |r.password| <= 20
  }

  /** A login needs both fields (`required` on a string: not empty). */
  predicate ValidLoginRequest(r: LoginRequest) {
    r.username != "" && r.password != ""
  }

  /** The declared limits of a profile update: a present username is 3 to 50, a present email is an email. */
  predicate ValidUpdateUserRequest(r: UpdateUserRequest) {
    && (r.username.Some? ==> 3 <= |r.username.value| <= 50)
    && (r.email.Some? ==> IsEmail(r.email.value))
  }

  /** Every username a registration accepts is accepted by a profile update, but
      not the other way round: the update allows up to 50 characters. */
  lemma UpdateUsernameLimitWiderThanRegister(r: RegisterRequest)
    requires ValidRegisterRequest(r)
    ensures ValidUpdateUserRequest(UpdateUserRequest(Some(r.username), Some(r.email)))
    ensures ValidUpdateUserRequest(UpdateUserRequest(Some(r.username + r.username), None))
    ensures |r.username| >= 11 ==> !ValidRegisterRequest(r.(username := r.username + r.username))
    ensures var name := "abcdefghijklmnopqrstu";
      ValidUpdateUserRequest(UpdateUserRequest(Some(name), None)) && !ValidRegisterRequest(r.(username := name))
  {
  }

  /** The public view of a user: id, username, email and creation time. */
  function ToUserInfo(u: User): (info: UserInfo)
    ensures info.id == u.id && info.username == u.username && info.email == u.email
    ensures info.createdAt == Unix(u.createdAt)
  {
    UserInfo(u.id, u.username, u.email, Unix(u.createdAt))
  }

  /** The public view does not depend on the password hash (nor on the update time). */
  lemma UserInfoOmitsHash(u: User, hash: string, updated: Time)
    ensures ToUserInfo(u.(passwordHash := hash, updatedAt := updated)) == ToUserInfo(u)
  {
  }

  /** HTTP status codes the handlers answer with. */
  const StatusOK := 200
  const StatusCreated := 201
  const StatusBadRequest := 400
  const StatusUnauthorized := 401
  const StatusNotFound := 404
  const StatusConflict := 409
  const StatusInternalServerError := 500

  /** The `data` member of a response. */
  datatype Payload =
    | NoData
    | TodoData(todo: TodoResponse)
    | ListData(list: TodoListResponse)
    | StatsData(stats: TodoStats)
    | BatchData(batch: BatchOperationResult)
    | UserData(user: UserInfo)

  /** The `{status, msg, data}` envelope. */
  datatype BaseResponse = BaseResponse(status: int, msg: string, data: Payload)

  /** The answer to a request that carries no authenticated identity. */
  const Unauthorized := BaseResponse(StatusUnauthorized, "未认证", NoData)

  /** A request body that does not bind answers 400 with the binding error. */
  function BindFailed(msg: string): (resp: BaseResponse)
    ensures resp.status == StatusBadRequest && resp.data == NoData
    ensures |resp.msg| > |msg| && resp.msg[|resp.msg| - |msg|..] == msg
  {
    BaseResponse(StatusBadRequest, "请求参数错误: " + msg, NoData)
  }
}
