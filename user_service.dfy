/** The account service: registration with username and email uniqueness,
    the lookups, the profile update that lets a user keep their own values,
    and deletion. Every write keeps the `users` table valid, in particular
    its two `unique` constraints. */
module UserService {
  import opened Wrappers
  import opened Clock
  import opened UserModel
  import opened Store
  import opened Bcrypt

  const ErrUsernameExists := "用户名已存在"
  const ErrEmailInUse := "邮箱已被使用"
  const ErrHashFailed := "密码加密失败"
  const ErrUserNotFound := "用户不存在"
  const ErrUsernameTaken := "用户名已被占用"
  const ErrEmailTaken := "邮箱已被占用"

  predicate UsernameHeld(users: map<int, User>, name: string) {
    exists id :: id in users && users[id].username == name
  }

  predicate EmailHeld(users: map<int, User>, email: string) {
    exists id :: id in users && users[id].email == email
  }

  /** `username = ? AND id != ?`: a row other than `self` holds the username. */
  predicate UsernameHeldByOther(users: map<int, User>, self: int, name: string) {
    exists id :: id in users && users[id].id != self && users[id].username == name
  }

  /** `email = ? AND id != ?`: a row other than `self` holds the email. */
  predicate EmailHeldByOther(users: map<int, User>, self: int, email: string) {
    exists id :: id in users && users[id].id != self && users[id].email == email
  }

  /** A new account whose username and email are both free keeps the table valid. */
  lemma InsertKeepsValid(users: map<int, User>, next: int, u: User)
    requires UserKeys(users, next) && UniqueAccounts(users)
    requires u.id == next && !UsernameHeld(users, u.username) && !EmailHeld(users, u.email)
    ensures UserKeys(users[u.id := u], next + 1) && UniqueAccounts(users[u.id := u])
  {
  }

  /** The row a profile update writes: username and email as supplied, and the
      update time; an empty request writes nothing. */
  function UpdatedUser(u: User, req: UpdateUserRequest, now: Time): (r: User)
    ensures r.id == u.id && r.passwordHash == u.passwordHash && r.createdAt == u.createdAt
    ensures r.username == req.username.GetOr(u.username) && r.email == req.email.GetOr(u.email)
    ensures req.username.None? && req.email.None? ==> r == u
    ensures !(req.username.None? && req.email.None?) ==> r.updatedAt == now
  {
    if req.username.None? && req.email.None? then u
    else u.(username := req.username.GetOr(u.username), email := req.email.GetOr(u.email), updatedAt := now)
  }

  /** A profile update that passed both `id != self` checks keeps the table valid. */
  lemma UpdateKeepsValid(users: map<int, User>, next: int, self: int, req: UpdateUserRequest, now: Time)
    requires UserKeys(users, next) && UniqueAccounts(users) && self in users
    requires req.username.Some? ==> !UsernameHeldByOther(users, self, req.username.value)
    requires req.email.Some? ==> !EmailHeldByOther(users, self, req.email.value)
    ensures var after := users[self := UpdatedUser(users[self], req, now)];
      UserKeys(after, next) && UniqueAccounts(after)
  {
    var after := users[self := UpdatedUser(users[self], req, now)];
    forall i, j | i in after && j in after && i != j
      ensures after[i].username != after[j].username && after[i].email != after[j].email
    {
      if i == self {
        assert users[j].id == j;
      } else if j == self {
        assert users[i].id == i;
      }
    }
  }

  /** Re-submitting one's own username or email never clashes: no other row holds them. */
  lemma {:induction false} OwnValuesAreFree(users: map<int, User>, next: int, self: int)
    requires UserKeys(users, next) && UniqueAccounts(users) && self in users
    ensures !UsernameHeldByOther(users, self, users[self].username)
    ensures !EmailHeldByOther(users, self, users[self].email)
  {
    forall id | id in users && users[id].id != self
      ensures users[id].username != users[self].username && users[id].email != users[self].email
    {
      assert users[id].id == id;
    }
  }

  /** Verifying against the stored hash of the password it was generated from succeeds. */
  lemma VerifyAcceptsOwnPassword(u: User, password: string, hasher: Hasher)
    requires Sound(hasher) && hasher.generate(password).Some?
    requires u.passwordHash == hasher.generate(password).value
    ensures UserService.VerifyPassword(u, password, hasher)
  {
  }

  class UserService {
    const db: Db

    constructor (db: Db)
      ensures this.db == db
    {
      this.db := db;
    }

    /** Register an account: the username check comes first, then the email
        check, then hashing; on any failure nothing is written. */
    method Register(req: RegisterRequest, now: Time, hasher: Hasher) returns (r: Result<User>)
      requires db.Valid()
      modifies db
      ensures db.Valid()
      ensures db.todos == old(db.todos) && db.nextTodoId == old(db.nextTodoId)
      ensures UsernameHeld(old(db.users), req.username) ==> r == Err(ErrUsernameExists)
      ensures !UsernameHeld(old(db.users), req.username) && EmailHeld(old(db.users), req.email) ==>
        r == Err(ErrEmailInUse)
      ensures (!UsernameHeld(old(db.users), req.username) && !EmailHeld(old(db.users), req.email)
               && hasher.generate(req.password).None?) ==> r == Err(ErrHashFailed)
      ensures (!UsernameHeld(old(db.users), req.username) && !EmailHeld(old(db.users), req.email)
               && hasher.generate(req.password).Some?) ==> r.Ok?
      ensures r.Err? ==> db.users == old(db.users) && db.nextUserId == old(db.nextUserId)
      ensures r.Ok? ==>
        && r.value == User(old(db.nextUserId), req.username, req.email, hasher.generate(req.password).value, now, now)
        && r.value.id !in old(db.users)
        && db.users == old(db.users)[r.value.id := r.value]
        && |db.users| == |old(db.users)| + 1
    {
      var byName := FirstUser(db.users, (u: User) => u.username == req.username);
      if byName.Some? {
        return Err(ErrUsernameExists);
      }
      var byEmail := FirstUser(db.users, (u: User) => u.email == req.email);
      if byEmail.Some? {
        return Err(ErrEmailInUse);
      }
      var hashed := hasher.generate(req.password);
      if hashed.None? {
        return Err(ErrHashFailed);
      }
      var user := User(db.nextUserId, req.username, req.email, hashed.value, now, now);
      InsertKeepsValid(db.users, db.nextUserId, user);
      db.users := db.users[user.id := user];
      db.nextUserId := db.nextUserId + 1;
      r := Ok(user);
    }

    /** `First(&user, id)`: the row with that primary key. */
    function GetUserByID(userId: int): (r: Result<User>)
      reads db
      ensures r.Ok? <==> userId in db.users
      ensures r.Ok? ==> r.value == db.users[userId]
      ensures r.Err? ==> r.msg == ErrUserNotFound
    {
      if userId in db.users then Ok(db.users[userId]) else Err(ErrUserNotFound)
    }

    /** The first row with that username. */
    function GetUserByUsername(name: string): (r: Result<User>)
      reads db
      ensures r.Ok? <==> UsernameHeld(db.users, name)
      ensures r.Ok? ==> r.value.username == name && r.value in db.users.Values
      ensures r.Err? ==> r.msg == ErrUserNotFound
    {
      var found := FirstUser(db.users, (u: User) => u.username == name);
      if found.Some? then Ok(found.value) else Err(ErrUserNotFound)
    }

    /** The first row with that email. */
    function GetUserByEmail(email: string): (r: Result<User>)
      reads db
      ensures r.Ok? <==> EmailHeld(db.users, email)
      ensures r.Ok? ==> r.value.email == email && r.value in db.users.Values
      ensures r.Err? ==> r.msg == ErrUserNotFound
    {
      var found := FirstUser(db.users, (u: User) => u.email == email);
      if found.Some? then Ok(found.value) else Err(ErrUserNotFound)
    }

    /** Update the caller's username and email. The username check precedes
        the email check, both precede the single write, and a value the caller
        already holds is accepted. */
    method UpdateUser(userId: int, req: UpdateUserRequest, now: Time) returns (r: Result<User>)
      requires db.Valid()
      modifies db
      ensures db.Valid()
      ensures db.todos == old(db.todos) && db.nextTodoId == old(db.nextTodoId) && db.nextUserId == old(db.nextUserId)
      ensures userId !in old(db.users) ==> r == Err(ErrUserNotFound)
      ensures (userId in old(db.users) && req.username.Some?
               && UsernameHeldByOther(old(db.users), userId, req.username.value)) ==> r == Err(ErrUsernameTaken)
      ensures (userId in old(db.users)
               && !(req.username.Some? && UsernameHeldByOther(old(db.users), userId, req.username.value))
               && req.email.Some? && EmailHeldByOther(old(db.users), userId, req.email.value)) ==> r == Err(ErrEmailTaken)
      ensures (userId in old(db.users)
               && (req.username.Some? ==> !UsernameHeldByOther(old(db.users), userId, req.username.value))
               && (req.email.Some? ==> !EmailHeldByOther(old(db.users), userId, req.email.value))) ==> r.Ok?
      ensures r.Err? ==> db.users == old(db.users)
      ensures r.Ok? ==>
        && userId in old(db.users)
        && r.value == UpdatedUser(old(db.users)[userId], req, now)
        && db.users == old(db.users)[userId := r.value]
    {
      var found := GetUserByID(userId);
      if found.Err? {
        return Err(found.msg);
      }
      var user := found.value;
      var updates: map<UserColumn, string> := map[];
      if req.username.Some? {
        var clash := FirstUser(db.users, (u: User) => u.username == req.username.value && u.id != userId);
        if clash.Some? {
          return Err(ErrUsernameTaken);
        }
        updates := updates[UsernameColumn := req.username.value];
      }
      if req.email.Some? {
        var clash := FirstUser(db.users, (u: User) => u.email == req.email.value && u.id != userId);
        if clash.Some? {
          return Err(ErrEmailTaken);
        }
        updates := updates[EmailColumn := req.email.value];
      }
      if |updates| > 0 {
        var written := user.(
          username := if UsernameColumn in updates then updates[UsernameColumn] else user.username,
          email := if EmailColumn in updates then updates[EmailColumn] else user.email,
          updatedAt := now);
        assert written == UpdatedUser(user, req, now) by {
          if req.username.Some? {
            assert UsernameColumn in updates;
          } else if req.email.Some? {
            assert EmailColumn in updates;
          }
        }
        UpdateKeepsValid(db.users, db.nextUserId, userId, req, now);
        db.users := db.users[userId := written];
        user := db.users[userId];
      } else {
        assert updates == map[];
        assert db.users == db.users[userId := user];
      }
      r := Ok(user);
    }

    /** Delete an account by primary key; zero rows removed reports the not-found error. */
    method DeleteUser(userId: int) returns (r: Outcome)
      requires db.Valid()
      modifies db
      ensures db.Valid()
      ensures db.todos == old(db.todos) && db.nextTodoId == old(db.nextTodoId) && db.nextUserId == old(db.nextUserId)
      ensures r.Pass? <==> userId in old(db.users)
      ensures r.Pass? ==> db.users == old(db.users) - {userId} && |db.users| == |old(db.users)| - 1
      ensures r.Fail? ==> r.msg == ErrUserNotFound && db.users == old(db.users)
    {
      var matched := set id | id in db.users && id == userId;
      if userId in db.users {
        assert matched == {userId};
      } else {
        assert matched == {};
      }
      db.users := map id | id in db.users && id !in matched :: db.users[id];
      if |matched| == 0 {
        assert db.users == old(db.users);
        return Fail(ErrUserNotFound);
      }
      assert db.users == old(db.users) - {userId};
      r := Pass;
    }

    /** `bcrypt.CompareHashAndPassword` on the stored hash. */
    static function VerifyPassword(u: User, password: string, hasher: Hasher): bool {
      hasher.compare(u.passwordHash, password)
    }
  }

  /** The columns a profile update may set. */
  datatype UserColumn = UsernameColumn | EmailColumn
}
