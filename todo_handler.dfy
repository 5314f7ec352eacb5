/** The to-do HTTP handlers: each resolves the caller, parses the `:id` path
    segment and the bound body, runs the engine operation, and picks the
    status code and envelope. The engine steps are those of `TodoService`;
    the handlers add the 401, 400, 404, 201 and 200 outcomes. */
module TodoHandler {
  import opened Wrappers
  import opened Clock
  import opened TodoModel
  import opened UserModel
  import opened Store
  import opened TodoRules
  import opened TodoService
  import opened Strconv
  import opened AuthMiddleware

  const InvalidId := BaseResponse(StatusBadRequest, "无效的ID", NoData)
  const TodoNotFound := BaseResponse(StatusNotFound, ErrTodoNotFound, NoData)
  const BadDeadlineFormat := BaseResponse(StatusBadRequest, ErrDeadlineFormat, NoData)

  class TodoHandler {
    const service: TodoService

    constructor (service: TodoService)
      ensures this.service == service
    {
      this.service := service;
    }

    /** List: binding errors are ignored, so the parameters are whatever bound. */
    method GetTodoList(ctx: Context, params: TodoQueryParams, order: seq<int>) returns (resp: BaseResponse)
      ensures GetUserID(ctx).Err? ==> resp == Unauthorized
      ensures GetUserID(ctx).Ok? ==> resp == BaseResponse(StatusOK, "获取成功",
        ListData(ListPage(service.db.todos, order, GetUserID(ctx).value, Normalized(params))))
    {
      var userId := GetUserID(ctx);
      if userId.Err? {
        return Unauthorized;
      }
      var list := service.GetTodoList(userId.value, params, order);
      resp := BaseResponse(StatusOK, "获取成功", ListData(list));
    }

    method CreateTodo(ctx: Context, bound: Result<CreateTodoRequest>, now: Time, parse: Rfc3339Parser) returns (resp: BaseResponse)
      requires service.db.Valid()
      modifies service.db
      ensures service.db.Valid()
      ensures GetUserID(ctx).Err? ==> resp == Unauthorized && unchanged(service.db)
      ensures GetUserID(ctx).Ok? && bound.Err? ==> resp == BindFailed(bound.msg) && unchanged(service.db)
      ensures GetUserID(ctx).Ok? && bound.Ok? ==>
        var r := NewTodo(old(service.db.nextTodoId), GetUserID(ctx).value, bound.value, now, parse);
        && (r.Err? ==> resp == BadDeadlineFormat && service.db.todos == old(service.db.todos))
        && (r.Ok? ==> resp == BaseResponse(StatusCreated, "创建成功", TodoData(ToResponse(r.value)))
                      && service.db.todos == old(service.db.todos)[r.value.id := r.value])
      ensures service.db.users == old(service.db.users)
      ensures GetUserID(ctx).Ok? ==> OnlyOwnRows(old(service.db.todos), service.db.todos, GetUserID(ctx).value)
      ensures AllConsistent(old(service.db.todos)) ==> AllConsistent(service.db.todos)
    {
      var userId := GetUserID(ctx);
      if userId.Err? {
        return Unauthorized;
      }
      if bound.Err? {
        return BindFailed(bound.msg);
      }
      var r := service.CreateTodo(userId.value, bound.value, now, parse);
      if r.Err? {
        return BadDeadlineFormat;
      }
      resp := BaseResponse(StatusCreated, "创建成功", TodoData(ToResponse(r.value)));
    }

    method GetTodo(ctx: Context, idParam: string) returns (resp: BaseResponse)
      ensures GetUserID(ctx).Err? ==> resp == Unauthorized
      ensures GetUserID(ctx).Ok? && ParseInt(idParam).None? ==> resp == InvalidId
      ensures GetUserID(ctx).Ok? && ParseInt(idParam).Some? ==>
        var found := FindOwned(service.db.todos, GetUserID(ctx).value, ParseInt(idParam).value);
        && (found.None? ==> resp == TodoNotFound)
        && (found.Some? ==> resp == BaseResponse(StatusOK, "获取成功", TodoData(ToResponse(found.value))))
    {
      var userId := GetUserID(ctx);
      if userId.Err? {
        return Unauthorized;
      }
      var todoId := ParseInt(idParam);
      if todoId.None? {
        return InvalidId;
      }
      var found := service.GetTodoByID(userId.value, todoId.value);
      if found.Err? {
        return TodoNotFound;
      }
      resp := BaseResponse(StatusOK, "获取成功", TodoData(ToResponse(found.value)));
    }

    /** Update: the owned row is looked up before the deadline is parsed, so a
        bad deadline on a missing or foreign id answers 404. */
    method UpdateTodo(ctx: Context, idParam: string, bound: Result<UpdateTodoRequest>, now: Time, parse: Rfc3339Parser)
      returns (resp: BaseResponse)
      requires service.db.Valid()
      modifies service.db
      ensures service.db.Valid()
      ensures GetUserID(ctx).Err? ==> resp == Unauthorized && unchanged(service.db)
      ensures GetUserID(ctx).Ok? && ParseInt(idParam).None? ==> resp == InvalidId && unchanged(service.db)
      ensures GetUserID(ctx).Ok? && ParseInt(idParam).Some? && bound.Err? ==>
        resp == BindFailed(bound.msg) && unchanged(service.db)
      ensures GetUserID(ctx).Ok? && ParseInt(idParam).Some? && bound.Ok? ==>
        var found := FindOwned(old(service.db.todos), GetUserID(ctx).value, ParseInt(idParam).value);
        && (found.None? ==> resp == TodoNotFound && service.db.todos == old(service.db.todos))
        && (found.Some? && BadDeadline(bound.value, parse) ==>
              resp == BadDeadlineFormat && service.db.todos == old(service.db.todos))
        && (found.Some? && !BadDeadline(bound.value, parse) ==>
              var t := UpdatedTodo(found.value, bound.value, now, parse).value;
              && resp == BaseResponse(StatusOK, "更新成功", TodoData(ToResponse(t)))
              && service.db.todos == old(service.db.todos)[ParseInt(idParam).value := t])
      ensures service.db.users == old(service.db.users)
      ensures GetUserID(ctx).Ok? ==> OnlyOwnRows(old(service.db.todos), service.db.todos, GetUserID(ctx).value)
      ensures AllConsistent(old(service.db.todos)) ==> AllConsistent(service.db.todos)
    {
      var userId := GetUserID(ctx);
      if userId.Err? {
        return Unauthorized;
      }
      var todoId := ParseInt(idParam);
      if todoId.None? {
        return InvalidId;
      }
      if bound.Err? {
        return BindFailed(bound.msg);
      }
      var r := service.UpdateTodo(userId.value, todoId.value, bound.value, now, parse);
      if r.Err? {
        if r.msg == ErrTodoNotFound {
          return TodoNotFound;
        }
        return BadDeadlineFormat;
      }
      resp := BaseResponse(StatusOK, "更新成功", TodoData(ToResponse(r.value)));
    }

    /** Delete: zero rows removed answers 404, otherwise 200. */
    method DeleteTodo(ctx: Context, idParam: string) returns (resp: BaseResponse)
      requires service.db.Valid()
      modifies service.db
      ensures service.db.Valid()
      ensures GetUserID(ctx).Err? ==> resp == Unauthorized && unchanged(service.db)
      ensures GetUserID(ctx).Ok? && ParseInt(idParam).None? ==> resp == InvalidId && unchanged(service.db)
      ensures GetUserID(ctx).Ok? && ParseInt(idParam).Some? ==>
        var found := FindOwned(old(service.db.todos), GetUserID(ctx).value, ParseInt(idParam).value);
        && (found.None? ==> resp == TodoNotFound && service.db.todos == old(service.db.todos))
        && (found.Some? ==> resp == BaseResponse(StatusOK, "删除成功", NoData)
                            && service.db.todos == old(service.db.todos) - {ParseInt(idParam).value})
      ensures service.db.users == old(service.db.users)
      ensures GetUserID(ctx).Ok? ==> OnlyOwnRows(old(service.db.todos), service.db.todos, GetUserID(ctx).value)
      ensures AllConsistent(old(service.db.todos)) ==> AllConsistent(service.db.todos)
    {
      var userId := GetUserID(ctx);
      if userId.Err? {
        return Unauthorized;
      }
      var todoId := ParseInt(idParam);
      if todoId.None? {
        return InvalidId;
      }
      var r := service.DeleteTodo(userId.value, todoId.value);
      if r.Fail? {
        return TodoNotFound;
      }
      resp := BaseResponse(StatusOK, "删除成功", NoData);
    }

    method ToggleTodo(ctx: Context, idParam: string, now: Time) returns (resp: BaseResponse)
      requires service.db.Valid()
      modifies service.db
      ensures service.db.Valid()
      ensures GetUserID(ctx).Err? ==> resp == Unauthorized && unchanged(service.db)
      ensures GetUserID(ctx).Ok? && ParseInt(idParam).None? ==> resp == InvalidId && unchanged(service.db)
      ensures GetUserID(ctx).Ok? && ParseInt(idParam).Some? ==>
        var found := FindOwned(old(service.db.todos), GetUserID(ctx).value, ParseInt(idParam).value);
        && (found.None? ==> resp == TodoNotFound && service.db.todos == old(service.db.todos))
        && (found.Some? ==>
              && resp == BaseResponse(StatusOK, "切换成功", TodoData(ToResponse(Toggled(found.value, now))))
              && service.db.todos == old(service.db.todos)[ParseInt(idParam).value := Toggled(found.value, now)])
      ensures service.db.users == old(service.db.users)
      ensures GetUserID(ctx).Ok? ==> OnlyOwnRows(old(service.db.todos), service.db.todos, GetUserID(ctx).value)
      ensures AllConsistent(old(service.db.todos)) ==> AllConsistent(service.db.todos)
    {
      var userId := GetUserID(ctx);
      if userId.Err? {
        return Unauthorized;
      }
      var todoId := ParseInt(idParam);
      if todoId.None? {
        return InvalidId;
      }
      var r := service.ToggleTodo(userId.value, todoId.value, now);
      if r.Err? {
        return TodoNotFound;
      }
      resp := BaseResponse(StatusOK, "切换成功", TodoData(ToResponse(r.value)));
    }

    method BatchComplete(ctx: Context, now: Time) returns (resp: BaseResponse)
      requires service.db.Valid()
      modifies service.db
      ensures service.db.Valid()
      ensures GetUserID(ctx).Err? ==> resp == Unauthorized && unchanged(service.db)
      ensures GetUserID(ctx).Ok? ==>
        var userId := GetUserID(ctx).value;
        && resp == BaseResponse(StatusOK, "批量完成成功", BatchData(BatchOperationResult(
             |OwnedWithStatus(old(service.db.todos), userId, StatusPending)|)))
        && service.db.todos == SetStatusWhere(old(service.db.todos), userId, StatusPending, StatusCompleted, Some(now), now)
      ensures service.db.users == old(service.db.users)
      ensures GetUserID(ctx).Ok? ==> OnlyOwnRows(old(service.db.todos), service.db.todos, GetUserID(ctx).value)
      ensures AllConsistent(old(service.db.todos)) ==> AllConsistent(service.db.todos)
    {
      var userId := GetUserID(ctx);
      if userId.Err? {
        return Unauthorized;
      }
      var affected := service.BatchComplete(userId.value, now);
      resp := BaseResponse(StatusOK, "批量完成成功", BatchData(BatchOperationResult(affected)));
    }

    method BatchPending(ctx: Context, now: Time) returns (resp: BaseResponse)
      requires service.db.Valid()
      modifies service.db
      ensures service.db.Valid()
      ensures GetUserID(ctx).Err? ==> resp == Unauthorized && unchanged(service.db)
      ensures GetUserID(ctx).Ok? ==>
        var userId := GetUserID(ctx).value;
        && resp == BaseResponse(StatusOK, "批量重置成功", BatchData(BatchOperationResult(
             |OwnedWithStatus(old(service.db.todos), userId, StatusCompleted)|)))
        && service.db.todos == SetStatusWhere(old(service.db.todos), userId, StatusCompleted, StatusPending, None, now)
      ensures service.db.users == old(service.db.users)
      ensures GetUserID(ctx).Ok? ==> OnlyOwnRows(old(service.db.todos), service.db.todos, GetUserID(ctx).value)
      ensures AllConsistent(old(service.db.todos)) ==> AllConsistent(service.db.todos)
    {
      var userId := GetUserID(ctx);
      if userId.Err? {
        return Unauthorized;
      }
      var affected := service.BatchPending(userId.value, now);
      resp := BaseResponse(StatusOK, "批量重置成功", BatchData(BatchOperationResult(affected)));
    }

    method BatchClearCompleted(ctx: Context) returns (resp: BaseResponse)
      requires service.db.Valid()
      modifies service.db
      ensures service.db.Valid()
      ensures GetUserID(ctx).Err? ==> resp == Unauthorized && unchanged(service.db)
      ensures GetUserID(ctx).Ok? ==>
        var userId := GetUserID(ctx).value;
        && resp == BaseResponse(StatusOK, "批量删除成功", BatchData(BatchOperationResult(
             |OwnedWithStatus(old(service.db.todos), userId, StatusCompleted)|)))
        && service.db.todos == DeleteWhere(old(service.db.todos), userId, StatusCompleted)
      ensures service.db.users == old(service.db.users)
      ensures GetUserID(ctx).Ok? ==> OnlyOwnRows(old(service.db.todos), service.db.todos, GetUserID(ctx).value)
      ensures AllConsistent(old(service.db.todos)) ==> AllConsistent(service.db.todos)
    {
      var userId := GetUserID(ctx);
      if userId.Err? {
        return Unauthorized;
      }
      var affected := service.BatchClearCompleted(userId.value);
      resp := BaseResponse(StatusOK, "批量删除成功", BatchData(BatchOperationResult(affected)));
    }

    method BatchClearPending(ctx: Context) returns (resp: BaseResponse)
      requires service.db.Valid()
      modifies service.db
      ensures service.db.Valid()
      ensures GetUserID(ctx).Err? ==> resp == Unauthorized && unchanged(service.db)
      ensures GetUserID(ctx).Ok? ==>
        var userId := GetUserID(ctx).value;
        && resp == BaseResponse(StatusOK, "批量删除成功", BatchData(BatchOperationResult(
             |OwnedWithStatus(old(service.db.todos), userId, StatusPending)|)))
        && service.db.todos == DeleteWhere(old(service.db.todos), userId, StatusPending)
      ensures service.db.users == old(service.db.users)
      ensures GetUserID(ctx).Ok? ==> OnlyOwnRows(old(service.db.todos), service.db.todos, GetUserID(ctx).value)
      ensures AllConsistent(old(service.db.todos)) ==> AllConsistent(service.db.todos)
    {
      var userId := GetUserID(ctx);
      if userId.Err? {
        return Unauthorized;
      }
      var affected := service.BatchClearPending(userId.value);
      resp := BaseResponse(StatusOK, "批量删除成功", BatchData(BatchOperationResult(affected)));
    }

    method GetStats(ctx: Context) returns (resp: BaseResponse)
      ensures GetUserID(ctx).Err? ==> resp == Unauthorized
      ensures GetUserID(ctx).Ok? ==>
        resp == BaseResponse(StatusOK, "获取成功", StatsData(Stats(service.db.todos, GetUserID(ctx).value)))
    {
      var userId := GetUserID(ctx);
      if userId.Err? {
        return Unauthorized;
      }
      var stats := service.GetStats(userId.value);
      resp := BaseResponse(StatusOK, "获取成功", StatsData(stats));
    }
  }
}
