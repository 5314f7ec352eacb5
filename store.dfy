/** The relational store, replaced by an in-memory one: a `Db` object owning the
    `todos` and `users` tables as maps from primary key to row, with the next
    auto-increment value of each. */
module Store {
  import opened Wrappers
  import opened TodoModel
  import opened UserModel
  import opened Keys

  /** Every to-do is stored under its own id, which the auto-increment counter has passed. */
  predicate TodoKeys(todos: map<int, Todo>, next: int) {
    next >= 1 && forall id :: id in todos ==> 1 <= id < next && todos[id].id == id
  }

  /** Every user is stored under its own id, which the auto-increment counter has passed. */
  predicate UserKeys(users: map<int, User>, next: int) {
    next >= 1 && forall id :: id in users ==> 1 <= id < next && users[id].id == id
  }

  /** The `unique` constraints on the username and email columns. */
  predicate UniqueAccounts(users: map<int, User>) {
    forall i, j :: i in users && j in users && i != j ==>
      users[i].username != users[j].username && users[i].email != users[j].email
  }

  class Db {
    var todos: map<int, Todo>
    var nextTodoId: int
    var users: map<int, User>
    var nextUserId: int

    ghost predicate Valid()
      reads this
    {
      TodoKeys(todos, nextTodoId) && UserKeys(users, nextUserId) && UniqueAccounts(users)
    }

    constructor ()
      ensures Valid()
      ensures todos == map[] && users == map[]
    {
      todos, nextTodoId := map[], 1;
      users, nextUserId := map[], 1;
    }
  }

  /** The primary keys of the rows that satisfy `p`. */
  function MatchingUserIds(users: map<int, User>, p: User -> bool): (ids: set<int>)
    ensures forall id :: id in ids <==> id in users && p(users[id])
  {
    set id | id in users && p(users[id])
  }

  /** `Count` over the rows that satisfy `p` is zero exactly when no row satisfies it. */
  lemma NoMatchIffCountZero(users: map<int, User>, p: User -> bool)
    ensures |MatchingUserIds(users, p)| == 0 <==> forall id :: id in users ==> !p(users[id])
  {
    var ids := MatchingUserIds(users, p);
    if id :| id in users && p(users[id]) {
      assert id in ids;
    } else {
      assert forall x :: x !in ids;
      assert ids == {};
    }
  }

  /** GORM's `Where(p).First(&user)`: the matching row with the lowest primary
      key, or `None` (`ErrRecordNotFound`) when no row matches. */
  function FirstUser(users: map<int, User>, p: User -> bool): (r: Option<User>)
    ensures r.None? <==> forall id :: id in users ==> !p(users[id])
    ensures r.Some? ==> MatchingUserIds(users, p) != {}
    ensures r.Some? ==> r.value == users[MinKey(MatchingUserIds(users, p))]
    ensures r.Some? ==> p(r.value)
  {
    var ids := MatchingUserIds(users, p);
    if ids == {} then None else Some(users[MinKey(ids)])
  }
}
