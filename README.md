# RemindGo to-do and account engine, in Dafny

RemindGo is a to-do web service. Users register, log in with a JWT bearer
token, and manage their own to-do items. Each item has a title, content, an
optional deadline and a status (0 pending, 1 completed). A completion time is
set exactly while the status is 1. The service offers a filtered, paged list,
single-item CRUD, toggling, four bulk operations and per-user statistics.

This project models that engine. The relational store is replaced by an
in-memory `Store.Db` object that owns two tables, `todos: map<int, Todo>` and
`users: map<int, User>`, together with their auto-increment counters. Every
service method changes that object in place and states its whole new state.

- `TodoRules` holds the to-do engine's logic as functions and lemmas:
  - parameter normalisation, the list filter and the paging arithmetic;
  - the row an update or a toggle produces;
  - the bulk updates and deletes, and the statistics.
- `TodoService` (from `internal/service/todo.go`) holds the operations as
  methods on the store. Each is proved against a `TodoRules` function.
- `TodoHandler` (from `internal/handler/todo.go`) adds authentication, `:id`
  parsing (`Strconv.ParseInt`) and the HTTP status codes. Its queries are
  line-for-line copies of the service's, so it calls the service.
- `UserService`, `AuthService`, `AuthMiddleware` and `UserHandler` hold the
  account side:
  - registration with unique usernames and emails, login by username or
    email, and password change and reset;
  - the JWT callbacks and the context lookups;
  - the status-code mapping of service errors.

These things are parameters rather than being modelled:

- the clock (`now: Time`);
- bcrypt (`Bcrypt.Hasher`, a generate and a compare function);
- the RFC 3339 parser (`Clock.Rfc3339Parser`);
- the row order the database returns for the `ORDER BY` clause (`order`);
- the outcome of binding a request body (`Result<...>`).

GORM's `First` is the matching row with the lowest primary key (`Store.FirstUser`).

The `binding:` tags on the request types are modelled as predicates
(`ValidCreateTodoRequest`, `ValidRegisterRequest`, ...). Only the login
authenticator enforces its tag, because it calls `BindAndValidate`. The other
handlers call `Bind`, which binds without validating, so the model does not
enforce those tags.

The code and its design description disagree in three places. The model
follows the code in each:

- The design says titles are 1–255 characters and statuses are 0 or 1. The
  handlers do not validate, so any title and any status integer reach the store.
- The design says a status update to 0 clears `completed_at`. The code clears
  it for every status other than 1.
- The design says a toggle flips pending and completed. The code sends status
  0 to 1 and every other status to 0.

## Model

| member | source | states |
|---|---|---|
| TodoRules.Normalized | internal/service/todo.go:26-43 | page becomes at least 1 (below 1 becomes 1); page size 10 when below 1, 100 when above 100, otherwise kept; empty status, sort column and sort order become "all", "created_at", "desc"; keyword untouched |
| TodoRules.NormalizedIsFixpoint | internal/service/todo.go:26-43 | normalised parameters need no further default or clamp, and normalising twice equals normalising once |
| TodoService.NormalizeParams | internal/service/todo.go:26-43 | the field-by-field in-place defaulting yields exactly `Normalized(params)` |
| TodoRules.ContainsIffOccurs | internal/service/todo.go:56-58 | the keyword test holds exactly when the keyword occurs at some position of the text (`LIKE '%k%'`) |
| TodoRules.ListFilterMeaning | internal/service/todo.go:46-58 | a row passes the list filter iff it is the caller's, it has status 0 for "pending" and 1 for "completed" (any other status string filters nothing), and, for a non-empty keyword, the title or the content contains it |
| TodoRules.Select | internal/service/todo.go:72-75 | every row the query returns satisfies the WHERE clause and is a stored row |
| TodoRules.SelectFollowsOrder | internal/service/todo.go:72-75 | the returned rows are the matching rows taken in the `ORDER BY` order: row i is the row at an increasing position of the ordering, and every matching position is taken |
| TodoRules.SelectIsComplete | internal/service/todo.go:72-75 | no matching row is missed: every stored row that passes the WHERE clause is among the returned rows |
| TodoRules.SelectCountsAllMatches | internal/service/todo.go:60-64 | when the store returns every row once, the rows returned number exactly the matching rows (`Count`) |
| TodoRules.PageSlice | internal/service/todo.go:70-75 | `OFFSET o LIMIT n`: at most n rows, consecutive from position o, fewer only at the end of the result |
| TodoRules.Offset | internal/service/todo.go:71 | the number of rows before a page is (page − 1) × size, never negative |
| TodoRules.CeilDiv | internal/service/todo.go:83-84 | the page count is the least p with p·size ≥ total, and is 0 exactly when total is 0 |
| TodoRules.EveryRowOnSomePage | internal/service/todo.go:70-91 | every matching row's position lies on exactly one page numbered 1 to the page count |
| TodoRules.ToResponse | internal/service/todo.go:303-324 | the response carries id, title, content, status and Unix times; creation, update, deadline and completion times are the Unix seconds of the stored times; deadline and completion time are present exactly when set |
| TodoRules.ResponseOmitsOwner | internal/model/todo.go:5-7 | the serialised form does not depend on the owner id (`json:"-"`) |
| TodoRules.Responses | internal/service/todo.go:77-81 | one response per row, in the same order |
| TodoRules.ListPage | internal/service/todo.go:60-92 | at most page-size items; echoes page and page size; total pages is the ceiling of total over page size |
| TodoRules.ListTotalCountsMatches | internal/service/todo.go:60-64 | the list total counts all of the caller's rows that pass the filter, before paging |
| TodoRules.ListItemsAreOwnedMatches | internal/service/todo.go:70-81 | item i is the response of matching row Offset(page, size)+i, so every listed item is the caller's and passes the filter |
| TodoService.ResponseItems | internal/service/todo.go:77-81 | the item slice has one entry per fetched row, entry i being the response of row i |
| TodoService.TodoService.GetTodoList | internal/service/todo.go:24-93 | the response built step by step equals `ListPage` on the normalised parameters, and its total counts the matching rows |
| TodoRules.FindOwned | internal/service/todo.go:121-130 | a row is found iff it exists under that id and belongs to the caller |
| TodoService.TodoService.GetTodoByID | internal/service/todo.go:121-130 | returns the stored row iff the id exists and the caller owns it; otherwise the not-found error, so another user's row is indistinguishable from a missing one |
| TodoRules.NewTodo | internal/service/todo.go:96-111 | a non-empty deadline that does not parse is the format error; otherwise a pending row of the caller's with the given title and content, the parsed deadline, no completion time, created and updated now |
| TodoRules.InsertIsScoped | internal/service/todo.go:113 | inserting a new row of the caller's changes no other user's row and keeps every row consistent |
| TodoService.TodoService.CreateTodo | internal/service/todo.go:96-118 | result is `NewTodo` under the next id; on success exactly that row is added, on error nothing is written; scoped to the caller; consistency and store validity kept |
| TodoRules.ApplyUpdates | internal/service/todo.go:171-177 | `Updates(map)`: each column in the map takes the map's value, columns not in the map keep their values, the update time becomes now; id, owner and creation time never change |
| TodoRules.UpdatedTodo | internal/service/todo.go:143-169 | format error iff a non-empty deadline does not parse; each present field replaces the stored one, absent fields stay; status 1 sets completed now, another status clears it; a non-empty deadline becomes its parsed time; an empty deadline clears it; a non-empty request stamps the update time now; a consistent row stays consistent; an empty request changes nothing |
| TodoService.BuildUpdates | internal/service/todo.go:143-169 | the updates map is empty iff the request is; it fails iff the deadline is bad; applied to any row it yields `UpdatedTodo` |
| TodoService.DescribedUpdatesApply | internal/service/todo.go:143-177 | a map with one entry per present field (and the completion time beside the status), applied to any row, gives exactly `UpdatedTodo` of that row |
| TodoRules.ReplaceIsScoped | internal/service/todo.go:172 | replacing the caller's row by an updated copy of it changes no other user's row and keeps every row consistent |
| TodoService.TodoService.UpdateTodo | internal/service/todo.go:133-180 | not-found when the caller does not own the id; otherwise the stored row becomes `UpdatedTodo` of it, or nothing is written on the deadline error; scoped and consistent |
| TodoService.TodoService.DeleteTodo | internal/service/todo.go:183-192 | succeeds iff the caller owns the id, then removes exactly that row; zero rows removed is the not-found error with nothing written |
| TodoRules.RemoveIsScoped | internal/service/todo.go:184 | removing one row of the caller's touches no other user's row and shrinks the table by one |
| TodoRules.Toggled | internal/service/todo.go:204-213 | status 0 becomes 1 with completion now; any other status becomes 0 with no completion time; the update time becomes now; the result is consistent; id, owner, title, content, deadline and creation time stay |
| TodoRules.ToggleTwice | internal/service/todo.go:204-213 | toggling twice restores a status of 0 or 1 (and a pending row has no completion time again); any other status ends at 1 |
| TodoService.TodoService.ToggleTodo | internal/service/todo.go:195-222 | not-found when the caller does not own the id; otherwise the stored row becomes `Toggled` of it and is returned |
| TodoRules.OwnedWithStatus | internal/service/todo.go:228 | exactly the ids of the caller's rows with the given status |
| TodoRules.SetStatusWhere | internal/service/todo.go:227-232 | a bulk update keeps the set of ids; every matched row gets the new status, the given completion stamp and the update time now; every other row is unchanged |
| TodoRules.BatchCompleteEffect | internal/service/todo.go:225-238 | completing in bulk changes exactly the caller's pending rows, each to status 1 with completion and update time now; leaves the caller no pending row; other users' rows are untouched; consistency kept |
| TodoRules.BatchPendingEffect | internal/service/todo.go:241-253 | resetting in bulk changes exactly the caller's completed rows, each to status 0 with no completion time and update time now; leaves the caller no completed row; other rows untouched |
| TodoRules.DeleteWhere | internal/service/todo.go:257 | a row survives iff it is not the caller's row of that status, and survivors are unchanged |
| TodoRules.DeleteWhereEffect | internal/service/todo.go:256-271 | deleting by status removes exactly the caller's rows of that status, and their number is the size difference of the table |
| TodoService.TodoService.BatchComplete | internal/service/todo.go:225-238 | the table becomes `SetStatusWhere(pending→completed)` and the count affected is the number of the caller's pending rows |
| TodoService.TodoService.BatchPending | internal/service/todo.go:241-253 | the table becomes `SetStatusWhere(completed→pending)` and the count affected is the number of the caller's completed rows |
| TodoService.TodoService.BatchClearCompleted | internal/service/todo.go:256-262 | the caller's completed rows are deleted and the count affected is their number |
| TodoService.TodoService.BatchClearPending | internal/service/todo.go:265-271 | the caller's pending rows are deleted and the count affected is their number |
| TodoRules.OwnedIds | internal/service/todo.go:280 | exactly the ids of the caller's rows |
| TodoRules.CompletionRate | internal/service/todo.go:289-292 | 0 with no rows; otherwise completed / total, between 0 and 1 |
| TodoRules.Stats | internal/service/todo.go:274-300 | total, completed and pending count the caller's rows, status-1 rows and status-0 rows; pending + completed ≤ total; rate in [0, 1] and rate·total = completed |
| TodoRules.StatsPartition | internal/service/todo.go:280-286 | when the caller's rows all have status 0 or 1, pending + completed = total |
| TodoService.TodoService.GetStats | internal/service/todo.go:274-300 | the three counts and the rate equal `Stats` of the table |
| Strconv.ParseInt | internal/handler/todo.go:200 | `strconv.ParseInt(s, 10, 64)`: succeeds only on an optional sign followed by decimal digits within the signed 64-bit range; a plain digit string parses to its value |
| Strconv.ParseRejectsNonDigit | internal/handler/todo.go:200 | any non-digit after the first character makes the id invalid |
| Strconv.FormatThenParse | internal/handler/todo.go:200 | every 64-bit id written in decimal parses back to itself |
| UserModel.BindFailed | internal/handler/todo.go:141-148 | a body that does not bind answers 400, with the binding error at the end of the message (the same answer at internal/handler/user.go:26-33) |
| TodoHandler.TodoHandler.GetTodoList | internal/handler/todo.go:27-126 | 401 without an identity; otherwise 200 with the list page of the caller's rows for the normalised parameters |
| TodoHandler.TodoHandler.CreateTodo | internal/handler/todo.go:129-185 | 401, then 400 on a binding error, then 400 on a bad deadline, else 201 with the new row's response; nothing is written on any error |
| TodoHandler.TodoHandler.GetTodo | internal/handler/todo.go:188-233 | 401, 400 for an id that does not parse, 404 unless the caller owns the row, else 200 with its response |
| TodoHandler.TodoHandler.UpdateTodo | internal/handler/todo.go:236-339 | 401, 400 bad id, 400 binding, 404 when not owned (checked before the deadline), 400 bad deadline, else 200 with the updated row |
| TodoHandler.TodoHandler.DeleteTodo | internal/handler/todo.go:342-388 | 401, 400 bad id, 404 when not owned, else 200 and exactly that row removed |
| TodoHandler.TodoHandler.ToggleTodo | internal/handler/todo.go:391-459 | 401, 400 bad id, 404 when not owned, else 200 with the toggled row |
| TodoHandler.TodoHandler.BatchComplete | internal/handler/todo.go:462-497 | 401, else 200 with the number of the caller's pending rows, all now completed |
| TodoHandler.TodoHandler.BatchPending | internal/handler/todo.go:500-534 | 401, else 200 with the number of the caller's completed rows, all now pending |
| TodoHandler.TodoHandler.BatchClearCompleted | internal/handler/todo.go:537-566 | 401, else 200 with the number of the caller's completed rows, all deleted |
| TodoHandler.TodoHandler.BatchClearPending | internal/handler/todo.go:569-598 | 401, else 200 with the number of the caller's pending rows, all deleted |
| TodoHandler.TodoHandler.GetStats | internal/handler/todo.go:601-641 | 401, else 200 with the caller's statistics |
| TodoModel.UpdateLimitsMatchCreate | internal/model/todo.go:18-30 | the update request's declared limits on title and content are the create request's, and an empty update is allowed |
| UserModel.ToUserInfo | internal/model/user.go:40-45 | the public view carries id, username, email and the Unix creation time |
| UserModel.UserInfoOmitsHash | internal/model/user.go:9 | the public view does not depend on the password hash |
| UserModel.UpdateUsernameLimitWiderThanRegister | internal/model/user.go:48-51 | every registrable username is acceptable to a profile update, but not the other way round: a 21-character username passes a profile update and fails registration, and doubling any username of 11 or more characters leaves registration's limit |
| Store.MatchingUserIds | internal/service/auth.go:99-104 | exactly the ids of the rows satisfying the condition |
| Store.NoMatchIffCountZero | internal/service/auth.go:109-124 | a `Count` is zero exactly when no row satisfies the condition |
| Store.FirstUser | internal/service/user.go:26 | `Where(p).First`: none iff no row satisfies p; otherwise the satisfying row with the least primary key |
| UserService.InsertKeepsValid | internal/service/user.go:41-50 | inserting an account whose username and email are both free keeps both unique constraints |
| UserService.UserService.Register | internal/service/user.go:23-53 | username taken → "用户名已存在"; else email taken → "邮箱已被使用"; else hash failure; when the username and email are free and hashing succeeds the call succeeds, with exactly one new account with the next id, the hash of the password, created now; nothing written on error; uniqueness kept |
| UserService.UserService.GetUserByID | internal/service/user.go:56-65 | the account iff the id exists, else "用户不存在" |
| UserService.UserService.GetUserByUsername | internal/service/user.go:68-77 | an account with that username iff one exists, else "用户不存在" |
| UserService.UserService.GetUserByEmail | internal/service/user.go:80-89 | an account with that email iff one exists, else "用户不存在" |
| UserService.UpdatedUser | internal/service/user.go:101-128 | present username and email replace the stored ones; a non-empty request sets the update time to now; id, hash and creation time kept; an empty request changes nothing |
| UserService.UpdateKeepsValid | internal/service/user.go:101-128 | an update that passed both "held by another row" checks keeps both unique constraints |
| UserService.OwnValuesAreFree | internal/service/user.go:104-120 | re-submitting one's own username or email never counts as taken |
| UserService.UserService.UpdateUser | internal/service/user.go:92-132 | not found; else username held by another → "用户名已被占用"; else email held by another → "邮箱已被占用"; else the row becomes `UpdatedUser`, and the call succeeds whenever the caller exists and no present value is held by another account; nothing written on error; uniqueness kept |
| UserService.UserService.DeleteUser | internal/service/user.go:135-144 | succeeds iff the id exists, then removes exactly that account; zero rows is "用户不存在" |
| UserService.VerifyAcceptsOwnPassword | internal/service/user.go:147-149 | checking the password a stored hash was generated from succeeds |
| AuthService.AuthService.Login | internal/service/auth.go:27-43 | succeeds iff the lowest-id account whose username or email is the identifier accepts the password; no account and a wrong password give the same error |
| AuthService.AuthService.LoginUsernameFirst | internal/service/auth.go:27-43 | the corrected lookup: username first, then email; a success is an account the identifier names whose hash accepts the password |
| AuthService.AuthService.ValidateUser | internal/service/auth.go:46-48 | validation is login |
| AuthService.AuthService.ChangePassword | internal/service/auth.go:51-75 | not found; wrong old password → "原密码错误"; hash failure → "密码加密失败"; else only that account's hash (and update time) change; nothing written on error |
| AuthService.AuthService.ResetPassword | internal/service/auth.go:78-95 | hashing is checked first; then zero rows is "用户不存在"; else only that account's hash (and update time) change |
| AuthService.AuthService.CheckUserExists | internal/service/auth.go:98-106 | true iff some account has the username or some account has the email |
| AuthService.AuthService.IsUsernameAvailable | internal/service/auth.go:109-115 | true iff no account has the username |
| AuthService.AuthService.IsEmailAvailable | internal/service/auth.go:118-124 | true iff no account has the email |
| AuthService.ExistsIffNotAvailable | internal/service/auth.go:98-124 | the existence check is the negation of the two availability checks together |
| AuthService.AvailableIffRegisterPasses | internal/service/auth.go:109-124 | both names available exactly when registration's two uniqueness checks pass |
| AuthService.AuthenticatorAgreesWithLogin | internal/middleware/auth.go:64-85 | for a validated login body the middleware's authenticator accepts iff the service's login does, with that account's id and username |
| AuthService.LoginShadowedByEmail | internal/service/auth.go:30 | with two legal accounts where one's username is the other's email, the newer account cannot log in by username with its own password; the corrected lookup admits it |
| AuthService.RegisteredUserCanLogIn | internal/service/auth.go:27-43 | with the corrected lookup, every account logs in with its username and the password its hash came from |
| AuthService.RegisteredUserCanLogInByEmail | internal/service/auth.go:27-43 | with the corrected lookup, an account logs in by email unless that email is another account's username |
| AuthMiddleware.TokenLifetimeIsSevenDays | internal/middleware/auth.go:17-39 | token lifetime and refresh window are both 604800 s (7 days); identity key is "user_id" |
| AuthMiddleware.PayloadFunc | internal/middleware/auth.go:42-50 | a JWT user becomes exactly the claims user_id and username; anything else no claims |
| AuthMiddleware.IdentityHandler | internal/middleware/auth.go:53-61 | id and username read back from the claims; a missing or mistyped claim reads as 0 or "" |
| AuthMiddleware.IdentityRoundTrip | internal/middleware/auth.go:42-61 | the identity read from a token's claims is the identity written into them |
| AuthMiddleware.Authenticator | internal/middleware/auth.go:64-85 | missing login values iff the body does not bind or a field is empty; an authenticated identity is an account named by the identifier whose hash accepts the password; no such account → failed authentication |
| AuthMiddleware.GetUserID | internal/middleware/auth.go:135-153 | the id under "user_id"; only when that key is absent, the id under "JWT_PAYLOAD"; any other value is "未找到用户ID" |
| AuthMiddleware.GetUsername | internal/middleware/auth.go:156-174 | the same lookup order and failures, for the username ("未找到用户名") |
| AuthMiddleware.LookupsAgree | internal/middleware/auth.go:135-174 | both lookups succeed on the same contexts and read the same stored identity |
| AuthMiddleware.IdentityReachesHandlers | internal/middleware/auth.go:135-153 | an identity stored under "user_id" is found; without it, the payload fallback decides |
| UserHandler.RegisterErrorStatus | internal/handler/user.go:38-42 | 409 exactly for the two registration conflicts, 500 otherwise |
| UserHandler.UpdateErrorStatus | internal/handler/user.go:137-143 | 404 exactly for not found, 409 exactly for the two profile conflicts, 500 otherwise |
| UserHandler.ServiceErrorsGetIntendedStatus | internal/handler/user.go:38-143 | each error the account service produces maps to its intended status |
| UserHandler.UserHandler.Register | internal/handler/user.go:24-62 | 400 on a binding error; 409 for a taken username, then for a taken email; 500 "密码加密失败" when hashing fails; 201 whenever the username and email are free and hashing succeeds, and 201 "注册成功，请登录" with the new account's public view; no token is issued |
| UserHandler.UserHandler.Logout | internal/handler/user.go:68-76 | always 200 "登出成功" with no data; no server state |
| UserHandler.UserHandler.GetProfile | internal/handler/user.go:79-111 | 401 without an identity, 404 when the account is gone, else 200 with its public view |
| UserHandler.UserHandler.UpdateProfile | internal/handler/user.go:114-162 | 401, 400 binding, 404, 409 username, 409 email; 200 whenever the caller exists and no present value is held by another account, with the updated public view |

## Left out

- Store failures. The in-memory store never fails, so the "查询失败", "创建失败", "更新失败", "删除失败", "批量操作失败", "批量删除失败", "创建用户失败", "密码修改失败", "密码重置失败" and "登录失败" paths and their 500 responses are not modelled. The same holds for the `Count` errors the availability checks return.
- TodoRules.Contains: the keyword is taken literally and compared case-sensitively. `%`, `_` and `\` inside the keyword act as wildcards in SQL `LIKE`, and a case-insensitive collation would also match differently; neither is modelled.
- UserService.UsernameHeld, UserService.EmailHeld, AuthService.AuthService.Login: string equality is exact. The database and its collation are not part of this model (only the MySQL default port in cmd/server/main.go:24 hints at MySQL); under a case-insensitive collation `Alice` and `alice` would clash on registration and both would find the same account on login.
- TodoService.TodoService.GetTodoList: `sort_by` and `sort_order` go into `ORDER BY` unchecked, and the model does not interpret them. The order the database returns rows in is the parameter `order`. The product `(page-1)*page_size` is exact here, so a Go `int` overflow on huge page numbers is not modelled.
- TodoRules.CeilDiv: an exact integer ceiling. The source divides in float64 and applies `math.Ceil`; the two agree while totals stay below 2^53.
- TodoRules.CompletionRate: an exact rational. float64 rounding is not modelled.
- AuthMiddleware.IdentityHandler: the id claim is an integer. JSON carries it as a float64, which is exact only up to 2^53, so larger ids are not modelled.
- JWT signing, verification, expiry checks, refresh, the `LoginResponse` and `Unauthorized` callbacks, and the token lookup settings are the JWT library's work (internal/middleware/auth.go:87-128). They are left out. The configuration constants are kept.
- bcrypt's salt, cost and 72-byte limit are behind the `Hasher` parameter. Only "a hash accepts the password it was generated from" is assumed, by the lemmas that name `Sound`.
- `Clock.Rfc3339Parser` is a parameter. The RFC 3339 grammar itself is not modelled.
- UserModel.IsEmail: a simplified address check (one `@` with text on both sides), not the validator's full rule.
- GORM's automatic timestamps are modelled as `now` at creation and at every `Updates`. Updates that change no column still set the update time.
- The re-read after an update or toggle. The service and the handler re-query the row they just wrote. With one request at a time that returns the written row, which is what the model returns.
- Concurrency. Interleaved requests (the read-modify-write of update and toggle, and the check-then-insert of registration) are not modelled; each operation runs atomically.
- DeleteUser does not cascade to the user's to-do rows, and neither does the model.
- CORS, logging, recovery, the router and `main` are not part of this model.
- The package-level mutable `JWTSecret`, `TokenExpiration` and `identityKey` are modelled as constants. The secret is not modelled.
- Failures when binding list query parameters are ignored by the source. Whatever bound is passed in as `params`.

## Findings

| source | as written | input that shows it | evidently intended | confidence | as-written member | corrected member |
|---|---|---|---|---|---|---|
| internal/service/auth.go:30 (same query at internal/middleware/auth.go:72) | login looks up `username = ? OR email = ?` with one identifier and takes the lowest id | account 1 has email "bob@x.io"; account 2 later registers username "bob@x.io" (registration checks usernames only against usernames); account 2 logs in with "bob@x.io" and its own password and is refused, because account 1 is found and its hash rejects the password | an account can always log in with its own username and password | not executed | AuthService.AuthService.Login, AuthService.LoginShadowedByEmail | AuthService.AuthService.LoginUsernameFirst, AuthService.RegisteredUserCanLogIn |
