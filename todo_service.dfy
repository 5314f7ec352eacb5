/** The to-do service: every operation of the engine, on the in-memory store.
    Each write is owner-scoped and keeps `completed_at` present exactly when
    the status is 1; each method is proved against the rule of the same name
    in `TodoRules`. */
module TodoService {
  import opened Wrappers
  import opened Clock
  import opened TodoModel
  import opened Store
  import opened TodoRules

  /** The in-place defaulting of list parameters, one field at a time. */
  method NormalizeParams(params: TodoQueryParams) returns (p: TodoQueryParams)
    ensures p == Normalized(params)
  {
    p := params;
    if p.page < 1 {
      p := p.(page := 1);
    }
    if p.pageSize < 1 {
      p := p.(pageSize := 10);
    }
    if p.pageSize > 100 {
      p := p.(pageSize := 100);
    }
    if p.status == "" {
      p := p.(status := "all");
    }
    if p.sortBy == "" {
      p := p.(sortBy := "created_at");
    }
    if p.sortOrder == "" {
      p := p.(sortOrder := "desc");
    }
  }

  /** The `updates` map of an update request, entry by entry; a deadline that
      does not parse stops before anything is written. */
  method BuildUpdates(req: UpdateTodoRequest, now: Time, parse: Rfc3339Parser) returns (r: Result<map<Column, Value>>)
    ensures r.Err? <==> BadDeadline(req, parse)
    ensures r.Err? ==> r.msg == ErrDeadlineFormat
    ensures r.Ok? ==> (|r.value| == 0 <==> IsEmptyUpdate(req))
    ensures r.Ok? && !IsEmptyUpdate(req) ==>
      forall t :: ApplyUpdates(t, r.value, now) == UpdatedTodo(t, req, now, parse).value
  {
    var updates: map<Column, Value> := map[];
    if req.title.Some? {
      updates := updates[Title := Text(req.title.value)];
    }
    if req.content.Some? {
      updates := updates[Content := Text(req.content.value)];
    }
    if req.status.Some? {
      updates := updates[Status := Number(req.status.value)];
      if req.status.value == StatusCompleted {
        updates := updates[CompletedAt := Stamp(Some(now))];
      } else {
        updates := updates[CompletedAt := Stamp(None)];
      }
    }
    if req.deadline.Some? {
      if req.deadline.value == "" {
        updates := updates[Deadline := Stamp(None)];
      } else {
        var parsed := parse(req.deadline.value);
        if parsed.None? {
          return Err(ErrDeadlineFormat);
        }
        updates := updates[Deadline := Stamp(parsed)];
      }
    }
    assert Describes(updates, req, now, parse);
    if IsEmptyUpdate(req) {
      assert updates == map[];
    } else {
      if req.title.Some? {
        assert Title in updates;
      } else if req.content.Some? {
        assert Content in updates;
      } else if req.status.Some? {
        assert Status in updates;
      } else {
        assert Deadline in updates;
      }
      forall t: Todo ensures ApplyUpdates(t, updates, now) == UpdatedTodo(t, req, now, parse).value {
        DescribedUpdatesApply(t, updates, req, now, parse);
      }
    }
    r := Ok(updates);
  }

  /** The entries an update request puts into the `updates` map: one per
      present field, and the completion time along with the status. */
  ghost predicate Describes(updates: map<Column, Value>, req: UpdateTodoRequest, now: Time, parse: Rfc3339Parser) {
    && (Title in updates <==> req.title.Some?)
    && (req.title.Some? ==> updates[Title] == Text(req.title.value))
    && (Content in updates <==> req.content.Some?)
    && (req.content.Some? ==> updates[Content] == Text(req.content.value))
    && (Status in updates <==> req.status.Some?)
    && (req.status.Some? ==> updates[Status] == Number(req.status.value))
    && (CompletedAt in updates <==> req.status.Some?)
    && (req.status.Some? ==>
          updates[CompletedAt] == Stamp(if req.status.value == StatusCompleted then Some(now) else None))
    && (Deadline in updates <==> req.deadline.Some?)
    && (req.deadline.Some? ==>
          updates[Deadline] == Stamp(if req.deadline.value == "" then None else parse(req.deadline.value)))
  }

  /** Applying the map an update request describes is the update the request means. */
  lemma DescribedUpdatesApply(t: Todo, updates: map<Column, Value>, req: UpdateTodoRequest, now: Time, parse: Rfc3339Parser)
    requires Describes(updates, req, now, parse)
    requires !BadDeadline(req, parse) && !IsEmptyUpdate(req)
    ensures ApplyUpdates(t, updates, now) == UpdatedTodo(t, req, now, parse).value
  {
  }

  /** The items of a list page: a slice of the same length, filled with the
      response of each row in turn. */
  method ResponseItems(rows: seq<Todo>) returns (items: seq<TodoResponse>)
    ensures |items| == |rows|
    ensures forall i :: 0 <= i < |rows| ==> items[i] == ToResponse(rows[i])
  {
    var a := new TodoResponse[|rows|];
    for i := 0 to |rows|
      invariant forall j :: 0 <= j < i ==> a[j] == ToResponse(rows[j])
    {
      a[i] := ToResponse(rows[i]);
    }
    items := a[..];
  }

  class TodoService {
    const db: Db

    constructor (db: Db)
      ensures this.db == db
    {
      this.db := db;
    }

    /** The list page. `order` is the order in which the store returns the rows
        for the requested `sort_by` and `sort_order`. */
    method GetTodoList(userId: int, params: TodoQueryParams, order: seq<int>) returns (resp: TodoListResponse)
      ensures resp == ListPage(db.todos, order, userId, Normalized(params))
      ensures IsOrdering(order, db.todos) ==>
        resp.total == |MatchingIds(db.todos, ListQuery(userId, Normalized(params)))|
    {
      var p := NormalizeParams(params);
      var query := Query(userId, None, None);
      if p.status == "pending" {
        query := query.(status := Some(StatusPending));
      } else if p.status == "completed" {
        query := query.(status := Some(StatusCompleted));
      }
      if p.keyword != "" {
        query := query.(keyword := Some(p.keyword));
      }
      assert query == ListQuery(userId, p);
      var rows := Select(db.todos, order, query);
      var total := |rows|;
      var offset := Offset(p.page, p.pageSize);
      var window := PageSlice(rows, offset, p.pageSize);
      var items := ResponseItems(window);
      assert items == Responses(window);
      var totalPages := CeilDiv(total, p.pageSize);
      resp := TodoListResponse(items, total, p.page, p.pageSize, totalPages);
      if IsOrdering(order, db.todos) {
        ListTotalCountsMatches(db.todos, order, userId, p);
      }
    }

    /** Insert a new pending row owned by the caller, or fail on a bad deadline without writing. */
    method CreateTodo(userId: int, req: CreateTodoRequest, now: Time, parse: Rfc3339Parser) returns (r: Result<Todo>)
      requires db.Valid()
      modifies db
      ensures db.Valid()
      ensures db.users == old(db.users)
      ensures r == NewTodo(old(db.nextTodoId), userId, req, now, parse)
      ensures r.Err? ==> db.todos == old(db.todos)
      ensures r.Ok? ==> r.value.id !in old(db.todos) && db.todos == old(db.todos)[r.value.id := r.value]
      ensures r.Ok? ==> |db.todos| == |old(db.todos)| + 1
      ensures OnlyOwnRows(old(db.todos), db.todos, userId)
      ensures AllConsistent(old(db.todos)) ==> AllConsistent(db.todos)
    {
      var deadline: Option<Time> := None;
      if req.deadline != "" {
        var parsed := parse(req.deadline);
        if parsed.None? {
          return Err(ErrDeadlineFormat);
        }
        deadline := parsed;
      }
      var todo := Todo(db.nextTodoId, userId, req.title, req.content, StatusPending, now, now, deadline, None);
      assert todo.id !in db.todos;
      InsertIsScoped(db.todos, todo);
      db.todos := db.todos[todo.id := todo];
      db.nextTodoId := db.nextTodoId + 1;
      r := Ok(todo);
    }

    /** `Where("id = ? AND user_id = ?").First`: the caller's row with that id. */
    function GetTodoByID(userId: int, todoId: int): (r: Result<Todo>)
      reads db
      ensures r.Ok? <==> todoId in db.todos && db.todos[todoId].userId == userId
      ensures r.Ok? ==> r.value == db.todos[todoId]
      ensures r.Err? ==> r.msg == ErrTodoNotFound
    {
      var found := FindOwned(db.todos, userId, todoId);
      if found.Some? then Ok(found.value) else Err(ErrTodoNotFound)
    }

    /** Update the caller's row with the supplied fields; nothing is written
        for a missing or foreign id, a bad deadline or an empty request. */
    method UpdateTodo(userId: int, todoId: int, req: UpdateTodoRequest, now: Time, parse: Rfc3339Parser) returns (r: Result<Todo>)
      requires db.Valid()
      modifies db
      ensures db.Valid()
      ensures db.users == old(db.users) && db.nextTodoId == old(db.nextTodoId)
      ensures FindOwned(old(db.todos), userId, todoId).None? ==> r == Err(ErrTodoNotFound)
      ensures FindOwned(old(db.todos), userId, todoId).Some? ==>
        r == UpdatedTodo(old(db.todos)[todoId], req, now, parse)
      ensures r.Err? ==> db.todos == old(db.todos)
      ensures r.Ok? ==> todoId in old(db.todos) && db.todos == old(db.todos)[todoId := r.value]
      ensures OnlyOwnRows(old(db.todos), db.todos, userId)
      ensures AllConsistent(old(db.todos)) ==> AllConsistent(db.todos)
    {
      var found := GetTodoByID(userId, todoId);
      if found.Err? {
        return Err(found.msg);
      }
      var todo := found.value;
      var built := BuildUpdates(req, now, parse);
      if built.Err? {
        return Err(built.msg);
      }
      var updates := built.value;
      if |updates| > 0 {
        var written := ApplyUpdates(todo, updates, now);
        ReplaceIsScoped(db.todos, todoId, written, userId);
        db.todos := db.todos[todoId := written];
        todo := db.todos[todoId];
      } else {
        assert updates == map[];
        assert db.todos == db.todos[todoId := todo];
      }
      r := Ok(todo);
    }

    /** Delete the caller's row; zero rows removed reports the not-found error. */
    method DeleteTodo(userId: int, todoId: int) returns (r: Outcome)
      requires db.Valid()
      modifies db
      ensures db.Valid()
      ensures db.users == old(db.users) && db.nextTodoId == old(db.nextTodoId)
      ensures r.Pass? <==> FindOwned(old(db.todos), userId, todoId).Some?
      ensures r.Fail? ==> r.msg == ErrTodoNotFound && db.todos == old(db.todos)
      ensures r.Pass? ==> db.todos == old(db.todos) - {todoId} && |db.todos| == |old(db.todos)| - 1
      ensures OnlyOwnRows(old(db.todos), db.todos, userId)
      ensures AllConsistent(old(db.todos)) ==> AllConsistent(db.todos)
    {
      var matched := set id | id in db.todos && id == todoId && db.todos[id].userId == userId;
      if todoId in db.todos && db.todos[todoId].userId == userId {
        assert matched == {todoId};
        RemoveIsScoped(db.todos, todoId, userId);
      } else {
        assert matched == {};
      }
      db.todos := map id | id in db.todos && id !in matched :: db.todos[id];
      var rowsAffected := |matched|;
      if rowsAffected == 0 {
        assert db.todos == old(db.todos);
        return Fail(ErrTodoNotFound);
      }
      assert db.todos == old(db.todos) - {todoId};
      r := Pass;
    }

    /** Flip the caller's row between pending and completed. */
    method ToggleTodo(userId: int, todoId: int, now: Time) returns (r: Result<Todo>)
      requires db.Valid()
      modifies db
      ensures db.Valid()
      ensures db.users == old(db.users) && db.nextTodoId == old(db.nextTodoId)
      ensures FindOwned(old(db.todos), userId, todoId).None? ==>
        r == Err(ErrTodoNotFound) && db.todos == old(db.todos)
      ensures FindOwned(old(db.todos), userId, todoId).Some? ==>
        && r == Ok(Toggled(old(db.todos)[todoId], now))
        && db.todos == old(db.todos)[todoId := r.value]
      ensures OnlyOwnRows(old(db.todos), db.todos, userId)
      ensures AllConsistent(old(db.todos)) ==> AllConsistent(db.todos)
    {
      var found := GetTodoByID(userId, todoId);
      if found.Err? {
        return Err(found.msg);
      }
      var todo := found.value;
      var updates: map<Column, Value>;
      if todo.status == StatusPending {
        updates := map[Status := Number(StatusCompleted), CompletedAt := Stamp(Some(now))];
      } else {
        updates := map[Status := Number(StatusPending), CompletedAt := Stamp(None)];
      }
      var written := ApplyUpdates(todo, updates, now);
      assert written == Toggled(todo, now);
      ReplaceIsScoped(db.todos, todoId, written, userId);
      db.todos := db.todos[todoId := written];
      r := Ok(db.todos[todoId]);
    }

    /** Mark every pending row of the caller's completed now; answers the number of rows changed. */
    method BatchComplete(userId: int, now: Time) returns (affected: int)
      requires db.Valid()
      modifies db
      ensures db.Valid()
      ensures db.users == old(db.users) && db.nextTodoId == old(db.nextTodoId)
      ensures db.todos == SetStatusWhere(old(db.todos), userId, StatusPending, StatusCompleted, Some(now), now)
      ensures affected == |OwnedWithStatus(old(db.todos), userId, StatusPending)|
      ensures OnlyOwnRows(old(db.todos), db.todos, userId)
      ensures OwnedWithStatus(db.todos, userId, StatusPending) == {}
      ensures AllConsistent(old(db.todos)) ==> AllConsistent(db.todos)
    {
      BatchCompleteEffect(db.todos, userId, now);
      affected := |OwnedWithStatus(db.todos, userId, StatusPending)|;
      db.todos := SetStatusWhere(db.todos, userId, StatusPending, StatusCompleted, Some(now), now);
    }

    /** Reset every completed row of the caller's to pending; answers the number of rows changed. */
    method BatchPending(userId: int, now: Time) returns (affected: int)
      requires db.Valid()
      modifies db
      ensures db.Valid()
      ensures db.users == old(db.users) && db.nextTodoId == old(db.nextTodoId)
      ensures db.todos == SetStatusWhere(old(db.todos), userId, StatusCompleted, StatusPending, None, now)
      ensures affected == |OwnedWithStatus(old(db.todos), userId, StatusCompleted)|
      ensures OnlyOwnRows(old(db.todos), db.todos, userId)
      ensures OwnedWithStatus(db.todos, userId, StatusCompleted) == {}
      ensures AllConsistent(old(db.todos)) ==> AllConsistent(db.todos)
    {
      BatchPendingEffect(db.todos, userId, now);
      affected := |OwnedWithStatus(db.todos, userId, StatusCompleted)|;
      db.todos := SetStatusWhere(db.todos, userId, StatusCompleted, StatusPending, None, now);
    }

    /** Delete every completed row of the caller's; answers the number removed. */
    method BatchClearCompleted(userId: int) returns (affected: int)
      requires db.Valid()
      modifies db
      ensures db.Valid()
      ensures db.users == old(db.users) && db.nextTodoId == old(db.nextTodoId)
      ensures db.todos == DeleteWhere(old(db.todos), userId, StatusCompleted)
      ensures affected == |OwnedWithStatus(old(db.todos), userId, StatusCompleted)|
      ensures affected == |old(db.todos)| - |db.todos|
      ensures OnlyOwnRows(old(db.todos), db.todos, userId)
      ensures AllConsistent(old(db.todos)) ==> AllConsistent(db.todos)
    {
      DeleteWhereEffect(db.todos, userId, StatusCompleted);
      affected := |OwnedWithStatus(db.todos, userId, StatusCompleted)|;
      db.todos := DeleteWhere(db.todos, userId, StatusCompleted);
    }

    /** Delete every pending row of the caller's; answers the number removed. */
    method BatchClearPending(userId: int) returns (affected: int)
      requires db.Valid()
      modifies db
      ensures db.Valid()
      ensures db.users == old(db.users) && db.nextTodoId == old(db.nextTodoId)
      ensures db.todos == DeleteWhere(old(db.todos), userId, StatusPending)
      ensures affected == |OwnedWithStatus(old(db.todos), userId, StatusPending)|
      ensures affected == |old(db.todos)| - |db.todos|
      ensures OnlyOwnRows(old(db.todos), db.todos, userId)
      ensures AllConsistent(old(db.todos)) ==> AllConsistent(db.todos)
    {
      DeleteWhereEffect(db.todos, userId, StatusPending);
      affected := |OwnedWithStatus(db.todos, userId, StatusPending)|;
      db.todos := DeleteWhere(db.todos, userId, StatusPending);
    }

    /** The caller's statistics, from three counts. */
    method GetStats(userId: int) returns (stats: TodoStats)
      ensures stats == Stats(db.todos, userId)
      ensures stats.pending + stats.completed <= stats.total
      ensures stats.total > 0 ==> stats.completionRate * stats.total as real == stats.completed as real
    {
      var total := |OwnedIds(db.todos, userId)|;
      var completed := |OwnedWithStatus(db.todos, userId, StatusCompleted)|;
      var pending := |OwnedWithStatus(db.todos, userId, StatusPending)|;
      var completionRate := 0.0;
      if total > 0 {
        completionRate := completed as real / total as real;
      }
      stats := TodoStats(total, pending, completed, completionRate);
    }
  }
}
