/** The to-do record and the request and response shapes of the to-do API.
    Binding-tag limits are stated as predicates; the handlers bind requests
    without validating them, so nothing in the engine relies on these. */
module TodoModel {
  import opened Wrappers
  import opened Clock

  /** Values of the `status` column: 0 is pending, 1 is completed, and a new row gets 0. */
  const StatusPending := 0
  const StatusCompleted := 1

  /** One row of the `todos` table. The owner id is never serialised. */
  datatype Todo = Todo(
    id: int,
    userId: int,
    title: string,
    content: string,
    status: int,
    createdAt: Time,
    updatedAt: Time,
    deadline: Option<Time>,
    completedAt: Option<Time>)

  datatype CreateTodoRequest = CreateTodoRequest(title: string, content: string, deadline: string)

  /** Every field is optional: `None` is a field absent from the JSON body. */
  datatype UpdateTodoRequest = UpdateTodoRequest(
    title: Option<string>,
    content: Option<string>,
    deadline: Option<string>,
    status: Option<int>)

  /** The serialised to-do: timestamps in Unix seconds, nullable deadline and
      completion time, and no owner field. */
  datatype TodoResponse = TodoResponse(
    id: int,
    title: string,
    content: string,
    status: int,
    createdAt: int,
    updatedAt: int,
    deadline: Option<int>,
    completedAt: Option<int>)

  datatype TodoListResponse = TodoListResponse(
    items: seq<TodoResponse>,
    total: int,
    page: int,
    pageSize: int,
    totalPages: int)

  /** The completion rate is an exact rational here; the source uses float64. */
  datatype TodoStats = TodoStats(total: int, pending: int, completed: int, completionRate: real)

  datatype BatchOperationResult = BatchOperationResult(affectedCount: int)

  datatype TodoQueryParams = TodoQueryParams(
    status: string,
    page: int,
    pageSize: int,
    keyword: string,
    sortBy: string,
    sortOrder: string)

  /** The declared `binding` limits of a create request: a title of 1 to 255
      characters and content of at most 1000. */
  predicate ValidCreateTodoRequest(r: CreateTodoRequest) {
    1 <= |r.title| <= 255 && |r.content| <= 1000
  }

  /** The declared limits of an update request: present fields carry the create
      bounds, and a present status is 0 or 1. */
  predicate ValidUpdateTodoRequest(r: UpdateTodoRequest) {
    && (r.title.Some? ==> 1 <= |r.title.value| <= 255)
    && (r.content.Some? ==> |r.content.value| <= 1000)
    && (r.status.Some? ==> r.status.value == StatusPending || r.status.value == StatusCompleted)
  }

  /** An update carrying the same title and content as a create request passes
      the update limits exactly when the create request passes its own; and a
      request with no fields at all is always within the limits. */
  lemma UpdateLimitsMatchCreate(title: string, content: string, deadline: string, status: Option<int>)
    requires status.None? || status.value == StatusPending || status.value == StatusCompleted
    ensures ValidCreateTodoRequest(CreateTodoRequest(title, content, deadline))
        <==> ValidUpdateTodoRequest(UpdateTodoRequest(Some(title), Some(content), Some(deadline), status))
    ensures ValidUpdateTodoRequest(UpdateTodoRequest(None, None, None, None))
  {
  }
}
