/** The authentication service: login by username or email, password change
    and reset, and the availability queries. */
module AuthService {
  import opened Wrappers
  import opened Clock
  import opened UserModel
  import opened Store
  import opened Bcrypt
  import opened UserService
  import opened Keys
  import opened AuthMiddleware

  const ErrBadCredentials := "用户名或密码错误"
  const ErrWrongOldPassword := "原密码错误"

  /** `username = ? OR email = ?` with the same identifier on both sides. */
  predicate Identifies(u: User, identifier: string) {
    u.username == identifier || u.email == identifier
  }

  class AuthService {
    const db: Db
    const userService: UserService

    constructor (db: Db)
      ensures this.db == db && userService.db == db
    {
      this.db := db;
      userService := new UserService(db);
    }

    /** Log in: the first row the identifier names as username or email, if
        its hash accepts the password. No such row and a wrong password give
        the same error. */
    function Login(identifier: string, password: string, hasher: Hasher): (r: Result<User>)
      reads db
      ensures r.Err? ==> r.msg == ErrBadCredentials
      ensures r.Ok? ==> Identifies(r.value, identifier) && hasher.compare(r.value.passwordHash, password)
      ensures r.Ok? ==> r.value in db.users.Values
      ensures (forall id :: id in db.users ==> !Identifies(db.users[id], identifier)) ==> r.Err?
      ensures r.Ok? <==> exists id :: (
        && id in db.users && Identifies(db.users[id], identifier)
        && (forall k :: k in db.users && Identifies(db.users[k], identifier) ==> id <= k)
        && hasher.compare(db.users[id].passwordHash, password))
    {
      var found := FirstUser(db.users, (u: User) => Identifies(u, identifier));
      if found.None? then Err(ErrBadCredentials)
      else if !hasher.compare(found.value.passwordHash, password) then Err(ErrBadCredentials)
      else Ok(found.value)
    }

    /** The intended login: the identifier is looked up as a username first,
        and as an email only when no account has that username. */
    function LoginUsernameFirst(identifier: string, password: string, hasher: Hasher): (r: Result<User>)
      reads db
      ensures r.Err? ==> r.msg == ErrBadCredentials
      ensures r.Ok? ==> Identifies(r.value, identifier) && hasher.compare(r.value.passwordHash, password)
      ensures r.Ok? ==> r.value in db.users.Values
    {
      var byName := FirstUser(db.users, (u: User) => u.username == identifier);
      var found := if byName.Some? then byName else FirstUser(db.users, (u: User) => u.email == identifier);
      if found.None? then Err(ErrBadCredentials)
      else if !hasher.compare(found.value.passwordHash, password) then Err(ErrBadCredentials)
      else Ok(found.value)
    }

    /** `ValidateUser` is `Login`. */
    function ValidateUser(identifier: string, password: string, hasher: Hasher): (r: Result<User>)
      reads db
      ensures r == Login(identifier, password, hasher)
    {
      Login(identifier, password, hasher)
    }

    /** Change a password after checking the old one; on any failure nothing is written. */
    method ChangePassword(userId: int, oldPassword: string, newPassword: string, now: Time, hasher: Hasher) returns (r: Outcome)
      requires db.Valid() && userService.db == db
      modifies db
      ensures db.Valid()
      ensures db.todos == old(db.todos) && db.nextTodoId == old(db.nextTodoId) && db.nextUserId == old(db.nextUserId)
      ensures userId !in old(db.users) ==> r == Fail(ErrUserNotFound)
      ensures userId in old(db.users) && !hasher.compare(old(db.users)[userId].passwordHash, oldPassword) ==>
        r == Fail(ErrWrongOldPassword)
      ensures (userId in old(db.users) && hasher.compare(old(db.users)[userId].passwordHash, oldPassword)
               && hasher.generate(newPassword).None?) ==> r == Fail(ErrHashFailed)
      ensures r.Fail? ==> db.users == old(db.users)
      ensures r.Pass? <==>
        userId in old(db.users) && hasher.compare(old(db.users)[userId].passwordHash, oldPassword)
        && hasher.generate(newPassword).Some?
      ensures r.Pass? ==> db.users == old(db.users)[userId :=
        old(db.users)[userId].(passwordHash := hasher.generate(newPassword).value, updatedAt := now)]
    {
      var found := userService.GetUserByID(userId);
      if found.Err? {
        return Fail(found.msg);
      }
      var user := found.value;
      if !hasher.compare(user.passwordHash, oldPassword) {
        return Fail(ErrWrongOldPassword);
      }
      var hashed := hasher.generate(newPassword);
      if hashed.None? {
        return Fail(ErrHashFailed);
      }
      db.users := db.users[userId := user.(passwordHash := hashed.value, updatedAt := now)];
      r := Pass;
    }

    /** Reset a password without the old one: hashing comes first, and zero
        rows updated reports the not-found error. */
    method ResetPassword(userId: int, newPassword: string, now: Time, hasher: Hasher) returns (r: Outcome)
      requires db.Valid()
      modifies db
      ensures db.Valid()
      ensures db.todos == old(db.todos) && db.nextTodoId == old(db.nextTodoId) && db.nextUserId == old(db.nextUserId)
      ensures hasher.generate(newPassword).None? ==> r == Fail(ErrHashFailed)
      ensures hasher.generate(newPassword).Some? && userId !in old(db.users) ==> r == Fail(ErrUserNotFound)
      ensures r.Fail? ==> db.users == old(db.users)
      ensures r.Pass? <==> hasher.generate(newPassword).Some? && userId in old(db.users)
      ensures r.Pass? ==> db.users == old(db.users)[userId :=
        old(db.users)[userId].(passwordHash := hasher.generate(newPassword).value, updatedAt := now)]
    {
      var hashed := hasher.generate(newPassword);
      if hashed.None? {
        return Fail(ErrHashFailed);
      }
      var matched := set id | id in db.users && id == userId;
      if userId in db.users {
        assert matched == {userId};
      } else {
        assert matched == {};
      }
      db.users := map id | id in db.users :: if id in matched then db.users[id].(passwordHash := hashed.value, updatedAt := now) else db.users[id];
      if |matched| == 0 {
        assert db.users == old(db.users);
        return Fail(ErrUserNotFound);
      }
      assert db.users == old(db.users)[userId := old(db.users)[userId].(passwordHash := hashed.value, updatedAt := now)];
      r := Pass;
    }

    /** Whether some account has the username or the email. */
    function CheckUserExists(username: string, email: string): (exists_: bool)
      reads db
      ensures exists_ <==> UsernameHeld(db.users, username) || EmailHeld(db.users, email)
    {
      var p := (u: User) => u.username == username || u.email == email;
      NoMatchIffCountZero(db.users, p);
      |MatchingUserIds(db.users, p)| > 0
    }

    /** Whether no account has the username. */
    function IsUsernameAvailable(username: string): (available: bool)
      reads db
      ensures available <==> !UsernameHeld(db.users, username)
    {
      var p := (u: User) => u.username == username;
      NoMatchIffCountZero(db.users, p);
      |MatchingUserIds(db.users, p)| == 0
    }

    /** Whether no account has the email. */
    function IsEmailAvailable(email: string): (available: bool)
      reads db
      ensures available <==> !EmailHeld(db.users, email)
    {
      var p := (u: User) => u.email == email;
      NoMatchIffCountZero(db.users, p);
      |MatchingUserIds(db.users, p)| == 0
    }
  }

  /** The existence check agrees with the two availability checks. */
  lemma ExistsIffNotAvailable(svc: AuthService, username: string, email: string)
    ensures svc.CheckUserExists(username, email) <==>
      !svc.IsUsernameAvailable(username) || !svc.IsEmailAvailable(email)
  {
  }

  /** The availability checks answer exactly what registration would reject on. */
  lemma AvailableIffRegisterPasses(svc: AuthService, req: RegisterRequest)
    ensures svc.IsUsernameAvailable(req.username) && svc.IsEmailAvailable(req.email) <==>
      !UsernameHeld(svc.db.users, req.username) && !EmailHeld(svc.db.users, req.email)
  {
  }

  /** The middleware's authenticator and the service's login accept the same
      validated requests, for the same account, and the identity carries that
      account's id and username whichever identifier was typed. */
  lemma {:induction false} AuthenticatorAgreesWithLogin(svc: AuthService, req: LoginRequest, hasher: Hasher)
    requires ValidLoginRequest(req)
    ensures var login := svc.Login(req.username, req.password, hasher);
      && (login.Ok? ==> Authenticator(Ok(req), svc.db, hasher) == Authenticated(JWTUser(login.value.id, login.value.username)))
      && (login.Err? ==> Authenticator(Ok(req), svc.db, hasher) == Rejected(ErrFailedAuthentication))
  {
    var users := svc.db.users;
    var p := (u: User) => Identifies(u, req.username);
    var q := (u: User) => u.username == req.username || u.email == req.username;
    assert MatchingUserIds(users, p) == MatchingUserIds(users, q);
  }

  /** A hasher that is sound: it prefixes the password and checks the prefix. */
  function PrefixHasher(): (h: Hasher)
    ensures Sound(h)
  {
    Hasher(p => Some("h:" + p), (hash: string, p: string) => hash == "h:" + p)
  }

  /** As written, a username equal to an older account's email cannot log in by
      that username: the lookup picks the older account, whose hash rejects the
      newer account's password. Account 1 has email "bob@x.io"; account 2 has
      username "bob@x.io", a legal username of 8 characters. Registration
      allows this, since it checks usernames only against usernames and
      emails only against emails. */
  lemma LoginShadowedByEmail(svc: AuthService)
    requires svc.db.users == map[
      1 := User(1, "alice", "bob@x.io", "h:secret1", Time(0, 0), Time(0, 0)),
      2 := User(2, "bob@x.io", "b@c.io", "h:secret2", Time(0, 0), Time(0, 0))]
    ensures UniqueAccounts(svc.db.users) && Sound(PrefixHasher())
    ensures ValidRegisterRequest(RegisterRequest("bob@x.io", "b@c.io", "secret2"))
    ensures svc.db.users[2].passwordHash == PrefixHasher().generate("secret2").value
    ensures svc.Login("bob@x.io", "secret2", PrefixHasher()).Err?
    ensures svc.LoginUsernameFirst("bob@x.io", "secret2", PrefixHasher()) == Ok(svc.db.users[2])
  {
    var email := "b@c.io";
    assert email[1] == '@' && '@' !in email[..1] && '@' !in email[2..];
    var users := svc.db.users;
    var p := (u: User) => Identifies(u, "bob@x.io");
    assert MatchingUserIds(users, p) == {1, 2};
    assert MinKey({1, 2}) == 1;
    var q := (u: User) => u.username == "bob@x.io";
    assert MatchingUserIds(users, q) == {2};
    assert MinKey({2}) == 2;
  }

  /** With the username looked up first, every account can log in by its
      username and the password its hash was generated from. */
  lemma {:induction false} RegisteredUserCanLogIn(svc: AuthService, id: int, password: string, hasher: Hasher)
    requires UniqueAccounts(svc.db.users) && Sound(hasher)
    requires id in svc.db.users && hasher.generate(password).Some?
    requires svc.db.users[id].passwordHash == hasher.generate(password).value
    ensures svc.LoginUsernameFirst(svc.db.users[id].username, password, hasher) == Ok(svc.db.users[id])
  {
    var users := svc.db.users;
    var name := users[id].username;
    var q := (u: User) => u.username == name;
    assert MatchingUserIds(users, q) == {id} by {
      forall k | k in MatchingUserIds(users, q) ensures k == id {
      }
    }
    assert MinKey({id}) == id;
  }

  /** With the username looked up first, an account can also log in by its
      email, unless another account has that email as its username. */
  lemma {:induction false} RegisteredUserCanLogInByEmail(svc: AuthService, id: int, password: string, hasher: Hasher)
    requires UniqueAccounts(svc.db.users) && Sound(hasher)
    requires id in svc.db.users && hasher.generate(password).Some?
    requires svc.db.users[id].passwordHash == hasher.generate(password).value
    requires !UsernameHeld(svc.db.users, svc.db.users[id].email)
    ensures svc.LoginUsernameFirst(svc.db.users[id].email, password, hasher) == Ok(svc.db.users[id])
  {
    var users := svc.db.users;
    var email := users[id].email;
    var q := (u: User) => u.email == email;
    assert MatchingUserIds(users, q) == {id} by {
      forall k | k in MatchingUserIds(users, q) ensures k == id {
      }
    }
    assert MinKey({id}) == id;
  }
}
