/** The to-do engine's rules as functions on the `todos` table: list-parameter
    defaults, the list filter, paging arithmetic, the row each write produces,
    the batch updates and the statistics. The service methods are proved
    against these definitions; the lemmas here state what they guarantee. */
module TodoRules {
  import opened Wrappers
  import opened Clock
  import opened TodoModel

  const ErrTodoNotFound := "待办事项不存在"
  const ErrDeadlineFormat := "截止时间格式错误，请使用ISO 8601格式"

  // ---------------------------------------------------------------------
  // List parameters

  /** The defaults and clamps applied to list parameters. */
  function Normalized(p: TodoQueryParams): (r: TodoQueryParams)
    ensures r.page >= 1 && 1 <= r.pageSize <= 100
    ensures p.page < 1 ==> r.page == 1
    ensures p.page >= 1 ==> r.page == p.page
    ensures p.pageSize < 1 ==> r.pageSize == 10
    ensures p.pageSize > 100 ==> r.pageSize == 100
    ensures 1 <= p.pageSize <= 100 ==> r.pageSize == p.pageSize
    ensures r.status == (if p.status == "" then "all" else p.status)
    ensures r.sortBy == (if p.sortBy == "" then "created_at" else p.sortBy)
    ensures r.sortOrder == (if p.sortOrder == "" then "desc" else p.sortOrder)
    ensures r.keyword == p.keyword
  {
    p.(page := if p.page < 1 then 1 else p.page,
       pageSize := if p.pageSize < 1 then 10 else if p.pageSize > 100 then 100 else p.pageSize,
       status := if p.status == "" then "all" else p.status,
       sortBy := if p.sortBy == "" then "created_at" else p.sortBy,
       sortOrder := if p.sortOrder == "" then "desc" else p.sortOrder)
  }

  /** Parameters that need no default and no clamp. */
  predicate IsNormalized(p: TodoQueryParams) {
    p.page >= 1 && 1 <= p.pageSize <= 100 && p.status != "" && p.sortBy != "" && p.sortOrder != ""
  }

  /** Normalising yields normalised parameters, and leaves those unchanged. */
  lemma NormalizedIsFixpoint(p: TodoQueryParams)
    ensures IsNormalized(Normalized(p))
    ensures IsNormalized(p) ==> Normalized(p) == p
    ensures Normalized(Normalized(p)) == Normalized(p)
  {
  }

  // ---------------------------------------------------------------------
  // The list filter

  /** `s LIKE '%k%'`, with the keyword taken literally: `k` occurs in `s`. */
  function Contains(s: string, k: string): bool
    decreases |s|
  {
    if |k| > |s| then false
    else if s[..|k|] == k then true
    else Contains(s[1..], k)
  }

  ghost predicate OccursAt(s: string, k: string, i: int) {
    0 <= i && i + |k| <= |s| && s[i..i + |k|] == k
  }

  /** `Contains` is substring search: it holds exactly when `k` occurs at some position of `s`. */
  lemma {:induction false} ContainsIffOccurs(s: string, k: string)
    ensures Contains(s, k) <==> exists i :: OccursAt(s, k, i)
    decreases |s|
  {
    if |k| > |s| {
    } else if s[..|k|] == k {
      assert OccursAt(s, k, 0);
    } else {
      ContainsIffOccurs(s[1..], k);
      if Contains(s[1..], k) {
        var i :| OccursAt(s[1..], k, i);
        assert s[1..][i..i + |k|] == s[i + 1..i + 1 + |k|];
        assert OccursAt(s, k, i + 1);
      }
      if j :| OccursAt(s, k, j) {
        assert j != 0;
        assert s[1..][j - 1..j - 1 + |k|] == s[j..j + |k|];
        assert OccursAt(s[1..], k, j - 1);
      }
    }
  }

  /** The WHERE clause the list query accumulates: the owner always, then an
      optional status, then an optional keyword. */
  datatype Query = Query(userId: int, status: Option<int>, keyword: Option<string>)

  /** The query the list operation builds from normalised parameters. */
  function ListQuery(userId: int, p: TodoQueryParams): Query {
    Query(userId,
          if p.status == "pending" then Some(StatusPending)
          else if p.status == "completed" then Some(StatusCompleted)
          else None,
          if p.keyword != "" then Some(p.keyword) else None)
  }

  predicate Matches(q: Query, t: Todo) {
    && t.userId == q.userId
    && (q.status.Some? ==> t.status == q.status.value)
    && (q.keyword.Some? ==> Contains(t.title, q.keyword.value) || Contains(t.content, q.keyword.value))
  }

  /** What the list filter keeps: the caller's rows; only status 0 for
      "pending", only status 1 for "completed", any status for every other
      string; and, for a non-empty keyword, rows whose title or content contains it. */
  lemma ListFilterMeaning(userId: int, p: TodoQueryParams, t: Todo)
    ensures Matches(ListQuery(userId, p), t) <==>
      && t.userId == userId
      && (p.status == "pending" ==> t.status == StatusPending)
      && (p.status == "completed" ==> t.status == StatusCompleted)
      && (p.keyword != "" ==> Contains(t.title, p.keyword) || Contains(t.content, p.keyword))
  {
  }

  // ---------------------------------------------------------------------
  // Ordering, counting and paging

  predicate Distinct(s: seq<int>) {
    forall i, j :: 0 <= i < j < |s| ==> s[i] != s[j]
  }

  /** The order the store returns rows in for the ORDER BY clause: every row id once. */
  ghost predicate IsOrdering(order: seq<int>, todos: map<int, Todo>) {
    Distinct(order) && (forall id :: id in order ==> id in todos) && (forall id :: id in todos ==> id in order)
  }

  /** The rows that satisfy `q`, in the given order. */
  function Select(todos: map<int, Todo>, order: seq<int>, q: Query): (rows: seq<Todo>)
    ensures |rows| <= |order|
    ensures forall i :: 0 <= i < |rows| ==> Matches(q, rows[i]) && rows[i] in todos.Values
  {
    if order == [] then []
    else
      var rest := Select(todos, order[1..], q);
      if order[0] in todos && Matches(q, todos[order[0]]) then [todos[order[0]]] + rest else rest
  }

  /** The ids of the rows that satisfy `q`. */
  function MatchingIds(todos: map<int, Todo>, q: Query): set<int> {
    set id | id in todos && Matches(q, todos[id])
  }

  ghost function ChosenFrom(todos: map<int, Todo>, order: seq<int>, q: Query): set<int> {
    set id | id in order && id in todos && Matches(q, todos[id])
  }

  lemma {:induction false} SelectSize(todos: map<int, Todo>, order: seq<int>, q: Query)
    requires Distinct(order)
    ensures |Select(todos, order, q)| == |ChosenFrom(todos, order, q)|
  {
    if order == [] {
      assert ChosenFrom(todos, order, q) == {};
    } else {
      var tail := order[1..];
      assert Distinct(tail) by {
        forall i, j | 0 <= i < j < |tail| ensures tail[i] != tail[j] {
          assert tail[i] == order[i + 1] && tail[j] == order[j + 1];
        }
      }
      SelectSize(todos, tail, q);
      var h := order[0];
      assert h !in tail by {
        forall i | 0 <= i < |tail| ensures tail[i] != h {
          assert tail[i] == order[i + 1];
        }
      }
      assert forall id :: id in order <==> id == h || id in tail by {
        assert order == [h] + tail;
      }
      if h in todos && Matches(q, todos[h]) {
        assert ChosenFrom(todos, order, q) == {h} + ChosenFrom(todos, tail, q);
      } else {
        assert ChosenFrom(todos, order, q) == ChosenFrom(todos, tail, q);
      }
    }
  }

  /** The list total counts every row that satisfies the query, before paging. */
  lemma SelectCountsAllMatches(todos: map<int, Todo>, order: seq<int>, q: Query)
    requires IsOrdering(order, todos)
    ensures |Select(todos, order, q)| == |MatchingIds(todos, q)|
  {
    SelectSize(todos, order, q);
    forall id ensures id in ChosenFrom(todos, order, q) <==> id in MatchingIds(todos, q) {
    }
    assert ChosenFrom(todos, order, q) == MatchingIds(todos, q);
  }

  /** The positions in `order`, offset by `base`, whose rows `Select` keeps. */
  ghost function Positions(todos: map<int, Todo>, order: seq<int>, q: Query, base: int): seq<int> {
    if order == [] then []
    else
      var rest := Positions(todos, order[1..], q, base + 1);
      if order[0] in todos && Matches(q, todos[order[0]]) then [base] + rest else rest
  }

  lemma {:induction false} PositionsInRange(todos: map<int, Todo>, order: seq<int>, q: Query, base: int)
    ensures forall i :: 0 <= i < |Positions(todos, order, q, base)| ==>
      base <= Positions(todos, order, q, base)[i] < base + |order|
  {
    if order != [] {
      var pos := Positions(todos, order, q, base);
      var rest := Positions(todos, order[1..], q, base + 1);
      PositionsInRange(todos, order[1..], q, base + 1);
      assert forall k :: 0 <= k < |rest| ==> base + 1 <= rest[k] < base + |order|;
      if order[0] in todos && Matches(q, todos[order[0]]) {
        assert pos == [base] + rest;
      } else {
        assert pos == rest;
      }
    }
  }

  lemma {:induction false} PositionsIncrease(todos: map<int, Todo>, order: seq<int>, q: Query, base: int)
    ensures forall i, j :: 0 <= i < j < |Positions(todos, order, q, base)| ==>
      Positions(todos, order, q, base)[i] < Positions(todos, order, q, base)[j]
  {
    if order != [] {
      var pos := Positions(todos, order, q, base);
      var rest := Positions(todos, order[1..], q, base + 1);
      PositionsIncrease(todos, order[1..], q, base + 1);
      PositionsInRange(todos, order[1..], q, base + 1);
      assert forall k :: 0 <= k < |rest| ==> base + 1 <= rest[k];
      if order[0] in todos && Matches(q, todos[order[0]]) {
        assert pos == [base] + rest;
      } else {
        assert pos == rest;
      }
    }
  }

  lemma {:induction false} PositionsPickRows(todos: map<int, Todo>, order: seq<int>, q: Query, base: int)
    ensures var pos := Positions(todos, order, q, base);
      var rows := Select(todos, order, q);
      && |pos| == |rows|
      && forall i :: 0 <= i < |pos| ==>
           0 <= pos[i] - base < |order| && order[pos[i] - base] in todos && rows[i] == todos[order[pos[i] - base]]
  {
    if order != [] {
      var tail := order[1..];
      PositionsPickRows(todos, tail, q, base + 1);
      var pos := Positions(todos, order, q, base);
      var rest := Positions(todos, tail, q, base + 1);
      var rows := Select(todos, order, q);
      var restRows := Select(todos, tail, q);
      if order[0] in todos && Matches(q, todos[order[0]]) {
        forall i | 0 < i < |pos|
          ensures 0 <= pos[i] - base < |order| && order[pos[i] - base] in todos
            && rows[i] == todos[order[pos[i] - base]]
        {
          var k := rest[i - 1] - (base + 1);
          assert pos[i] == rest[i - 1] && rows[i] == restRows[i - 1];
          assert order[k + 1] == tail[k];
        }
      } else {
        forall i | 0 <= i < |pos|
          ensures 0 <= pos[i] - base < |order| && order[pos[i] - base] in todos
            && rows[i] == todos[order[pos[i] - base]]
        {
          var k := rest[i] - (base + 1);
          assert order[k + 1] == tail[k];
        }
      }
    }
  }

  lemma {:induction false} PositionsCover(todos: map<int, Todo>, order: seq<int>, q: Query, base: int)
    ensures var pos := Positions(todos, order, q, base);
      forall k :: 0 <= k < |order| && order[k] in todos && Matches(q, todos[order[k]]) ==> k + base in pos
  {
    if order != [] {
      var tail := order[1..];
      PositionsCover(todos, tail, q, base + 1);
      var pos := Positions(todos, order, q, base);
      var rest := Positions(todos, tail, q, base + 1);
      assert forall x :: x in rest ==> x in pos;
      forall k | 0 < k < |order| && order[k] in todos && Matches(q, todos[order[k]]) ensures k + base in pos {
        assert tail[k - 1] == order[k];
        assert (k - 1) + (base + 1) in rest;
      }
    }
  }

  /** The rows come in the store's order: row i is the row at the i-th kept
      position of `order`, positions increase, and every position whose row
      satisfies the query is kept. */
  lemma SelectFollowsOrder(todos: map<int, Todo>, order: seq<int>, q: Query)
    ensures var pos := Positions(todos, order, q, 0);
      var rows := Select(todos, order, q);
      && |pos| == |rows|
      && (forall i :: 0 <= i < |pos| ==> 0 <= pos[i] < |order| && order[pos[i]] in todos && rows[i] == todos[order[pos[i]]])
      && (forall i, j :: 0 <= i < j < |pos| ==> pos[i] < pos[j])
      && (forall k :: 0 <= k < |order| && order[k] in todos && Matches(q, todos[order[k]]) ==> k in pos)
  {
    PositionsInRange(todos, order, q, 0);
    PositionsIncrease(todos, order, q, 0);
    PositionsPickRows(todos, order, q, 0);
    PositionsCover(todos, order, q, 0);
  }

  /** When the store returns every row, every row satisfying the query is listed. */
  lemma SelectIsComplete(todos: map<int, Todo>, order: seq<int>, q: Query)
    requires IsOrdering(order, todos)
    ensures forall id :: id in MatchingIds(todos, q) ==> todos[id] in Select(todos, order, q)
  {
    SelectFollowsOrder(todos, order, q);
    var pos := Positions(todos, order, q, 0);
    var rows := Select(todos, order, q);
    forall id | id in MatchingIds(todos, q) ensures todos[id] in rows {
      var k :| 0 <= k < |order| && order[k] == id;
      assert k in pos;
      var i :| 0 <= i < |pos| && pos[i] == k;
      assert rows[i] == todos[id];
    }
  }

  function Min(a: int, b: int): int {
    if a <= b then a else b
  }

  /** `OFFSET offset LIMIT limit`: at most `limit` consecutive rows starting at `offset`. */
  function PageSlice<T>(rows: seq<T>, offset: int, limit: int): (w: seq<T>)
    requires offset >= 0 && limit >= 0
    ensures |w| <= limit
    ensures offset + |w| <= |rows| || w == []
    ensures forall i :: 0 <= i < |w| ==> w[i] == rows[offset + i]
    ensures |w| < limit ==> offset + |w| >= |rows|
  {
    if offset >= |rows| then [] else rows[offset..Min(offset + limit, |rows|)]
  }

  /** `ceil(total / size)` on integers. */
  function CeilDiv(total: int, size: int): (pages: int)
    requires total >= 0 && size >= 1
    ensures pages >= 0
    ensures pages * size >= total
    ensures (pages - 1) * size < total || pages == 0
    ensures pages == 0 <==> total == 0
  {
    (total + size - 1) / size
  }

  /** Every matching row lies on exactly one page between 1 and the page count:
      the row at position `j` is on page `j / size + 1`. */
  lemma EveryRowOnSomePage(total: int, size: int, j: int)
    requires total >= 0 && size >= 1 && 0 <= j < total
    ensures var page := j / size + 1;
      && 1 <= page <= CeilDiv(total, size)
      && (page - 1) * size <= j < page * size
  {
    var page := j / size + 1;
    var pages := CeilDiv(total, size);
    assert (page - 1) * size <= j < page * size by {
      assert j == size * (j / size) + j % size;
    }
    assert (page - 1) * size < pages * size;
    MulCancel(page - 1, pages, size);
  }

  lemma MulMonotone(a: int, b: int, c: int)
    requires a <= b && c >= 0
    ensures a * c <= b * c
  {
  }

  lemma MulCancel(a: int, b: int, c: int)
    requires c >= 1 && a * c < b * c
    ensures a < b
  {
    assert (b - a) * c == b * c - a * c;
  }

  /** The number of rows before page `page`. */
  function Offset(page: int, size: int): (o: int)
    requires page >= 1 && size >= 1
    ensures o >= 0
    ensures o == (page - 1) * size
  {
    MulMonotone(0, page - 1, size);
    (page - 1) * size
  }

  /** The serialised form of a row. */
  function ToResponse(t: Todo): (r: TodoResponse)
    ensures r.id == t.id && r.title == t.title && r.content == t.content && r.status == t.status
    ensures r.createdAt == Unix(t.createdAt) && r.updatedAt == Unix(t.updatedAt)
    ensures r.deadline == (if t.deadline.Some? then Some(Unix(t.deadline.value)) else None)
    ensures r.completedAt == (if t.completedAt.Some? then Some(Unix(t.completedAt.value)) else None)
  {
    TodoResponse(
      t.id, t.title, t.content, t.status, Unix(t.createdAt), Unix(t.updatedAt),
      if t.deadline.Some? then Some(Unix(t.deadline.value)) else None,
      if t.completedAt.Some? then Some(Unix(t.completedAt.value)) else None)
  }

  /** A response does not depend on the owner, so it cannot reveal it. */
  lemma ResponseOmitsOwner(t: Todo, owner: int)
    ensures ToResponse(t.(userId := owner)) == ToResponse(t)
  {
  }

  function Responses(rows: seq<Todo>): (items: seq<TodoResponse>)
    ensures |items| == |rows|
    ensures forall i :: 0 <= i < |rows| ==> items[i] == ToResponse(rows[i])
  {
    seq(|rows|, i requires 0 <= i < |rows| => ToResponse(rows[i]))
  }

  /** The list response for normalised parameters, when the store returns rows in `order`. */
  function ListPage(todos: map<int, Todo>, order: seq<int>, userId: int, p: TodoQueryParams): (r: TodoListResponse)
    requires p.page >= 1 && 1 <= p.pageSize
    ensures |r.items| <= p.pageSize
    ensures r.page == p.page && r.pageSize == p.pageSize
    ensures r.total >= 0
    ensures r.totalPages * p.pageSize >= r.total
    ensures (r.totalPages - 1) * p.pageSize < r.total || r.totalPages == 0
    ensures r.totalPages == 0 <==> r.total == 0
  {
    var rows := Select(todos, order, ListQuery(userId, p));
    var window := PageSlice(rows, Offset(p.page, p.pageSize), p.pageSize);
    TodoListResponse(Responses(window), |rows|, p.page, p.pageSize, CeilDiv(|rows|, p.pageSize))
  }

  /** The total of a list response is the number of the caller's rows that pass the filter. */
  lemma ListTotalCountsMatches(todos: map<int, Todo>, order: seq<int>, userId: int, p: TodoQueryParams)
    requires p.page >= 1 && 1 <= p.pageSize
    requires IsOrdering(order, todos)
    ensures ListPage(todos, order, userId, p).total == |MatchingIds(todos, ListQuery(userId, p))|
  {
    SelectCountsAllMatches(todos, order, ListQuery(userId, p));
  }

  /** The items are the responses of consecutive matching rows starting at
      `(page - 1) * pageSize`, each one a row of the caller's. */
  lemma ListItemsAreOwnedMatches(todos: map<int, Todo>, order: seq<int>, userId: int, p: TodoQueryParams, i: int)
    requires p.page >= 1 && 1 <= p.pageSize
    requires 0 <= i < |ListPage(todos, order, userId, p).items|
    ensures var rows := Select(todos, order, ListQuery(userId, p));
      var j := Offset(p.page, p.pageSize) + i;
      && j < |rows|
      && ListPage(todos, order, userId, p).items[i] == ToResponse(rows[j])
      && rows[j] in todos.Values
      && rows[j].userId == userId
  {
    var rows := Select(todos, order, ListQuery(userId, p));
    var offset := Offset(p.page, p.pageSize);
    var window := PageSlice(rows, offset, p.pageSize);
    assert ListPage(todos, order, userId, p).items == Responses(window);
    assert window[i] == rows[offset + i];
  }

  // ---------------------------------------------------------------------
  // Row invariants

  /** `completed_at` is present exactly when the status is 1. */
  predicate Consistent(t: Todo) {
    t.completedAt.Some? <==> t.status == StatusCompleted
  }

  predicate AllConsistent(todos: map<int, Todo>) {
    forall id :: id in todos ==> Consistent(todos[id])
  }

  /** A write scoped to `userId`: rows of other users are neither changed,
      removed nor added, and no row changes owner. */
  ghost predicate OnlyOwnRows(before: map<int, Todo>, after: map<int, Todo>, userId: int) {
    && (forall id :: id in before && before[id].userId != userId ==> id in after && after[id] == before[id])
    && (forall id :: id in after && after[id].userId != userId ==> id in before && before[id] == after[id])
    && (forall id :: id in before && id in after ==> after[id].userId == before[id].userId)
  }

  /** The row the caller may address: `id = todoId AND user_id = userId`. */
  function FindOwned(todos: map<int, Todo>, userId: int, todoId: int): (r: Option<Todo>)
    ensures r.Some? <==> todoId in todos && todos[todoId].userId == userId
    ensures r.Some? ==> r.value == todos[todoId]
  {
    if todoId in todos && todos[todoId].userId == userId then Some(todos[todoId]) else None
  }

  // ---------------------------------------------------------------------
  // Create

  /** The row a create request produces, or the deadline format error. */
  function NewTodo(id: int, userId: int, req: CreateTodoRequest, now: Time, parse: Rfc3339Parser): (r: Result<Todo>)
    ensures r.Err? <==> req.deadline != "" && parse(req.deadline).None?
    ensures r.Err? ==> r.msg == ErrDeadlineFormat
    ensures r.Ok? ==> var t := r.value;
      && t.id == id && t.userId == userId
      && t.title == req.title && t.content == req.content
      && t.status == StatusPending && t.completedAt.None? && Consistent(t)
      && (t.deadline.None? <==> req.deadline == "")
      && (t.deadline.Some? ==> t.deadline == parse(req.deadline))
      && t.createdAt == now && t.updatedAt == now
  {
    if req.deadline == "" then
      Ok(Todo(id, userId, req.title, req.content, StatusPending, now, now, None, None))
    else if parse(req.deadline).None? then
      Err(ErrDeadlineFormat)
    else
      Ok(Todo(id, userId, req.title, req.content, StatusPending, now, now, parse(req.deadline), None))
  }

  /** Inserting a new row of the caller's under a fresh id is scoped to the
      caller and keeps every row consistent. */
  lemma InsertIsScoped(todos: map<int, Todo>, t: Todo)
    requires t.id !in todos && Consistent(t)
    ensures OnlyOwnRows(todos, todos[t.id := t], t.userId)
    ensures AllConsistent(todos) ==> AllConsistent(todos[t.id := t])
  {
  }

  // ---------------------------------------------------------------------
  // Update and toggle

  /** The columns an update may set. */
  datatype Column = Title | Content | Status | CompletedAt | Deadline

  /** A column value: text, integer, or a nullable timestamp. */
  datatype Value = Text(text: string) | Number(number: int) | Stamp(stamp: Option<Time>)

  /** GORM's `Updates(map)`: set each listed column, and `updated_at` to now. */
  function ApplyUpdates(t: Todo, updates: map<Column, Value>, now: Time): (r: Todo)
    ensures r.id == t.id && r.userId == t.userId && r.createdAt == t.createdAt
    ensures Title !in updates ==> r.title == t.title
    ensures Content !in updates ==> r.content == t.content
    ensures Status !in updates ==> r.status == t.status
    ensures CompletedAt !in updates ==> r.completedAt == t.completedAt
    ensures Deadline !in updates ==> r.deadline == t.deadline
    ensures Title in updates && updates[Title].Text? ==> r.title == updates[Title].text
    ensures Content in updates && updates[Content].Text? ==> r.content == updates[Content].text
    ensures Status in updates && updates[Status].Number? ==> r.status == updates[Status].number
    ensures CompletedAt in updates && updates[CompletedAt].Stamp? ==> r.completedAt == updates[CompletedAt].stamp
    ensures Deadline in updates && updates[Deadline].Stamp? ==> r.deadline == updates[Deadline].stamp
    ensures r.updatedAt == now
  {
    t.(title := if Title in updates && updates[Title].Text? then updates[Title].text else t.title,
       content := if Content in updates && updates[Content].Text? then updates[Content].text else t.content,
       status := if Status in updates && updates[Status].Number? then updates[Status].number else t.status,
       completedAt := if CompletedAt in updates && updates[CompletedAt].Stamp? then updates[CompletedAt].stamp else t.completedAt,
       deadline := if Deadline in updates && updates[Deadline].Stamp? then updates[Deadline].stamp else t.deadline,
       updatedAt := now)
  }

  predicate IsEmptyUpdate(req: UpdateTodoRequest) {
    req.title.None? && req.content.None? && req.deadline.None? && req.status.None?
  }

  predicate BadDeadline(req: UpdateTodoRequest, parse: Rfc3339Parser) {
    req.deadline.Some? && req.deadline.value != "" && parse(req.deadline.value).None?
  }

  /** What an update request does to the caller's row `t`, field by field. */
  function UpdatedTodo(t: Todo, req: UpdateTodoRequest, now: Time, parse: Rfc3339Parser): (r: Result<Todo>)
    ensures r.Err? <==> BadDeadline(req, parse)
    ensures r.Err? ==> r.msg == ErrDeadlineFormat
    ensures r.Ok? && IsEmptyUpdate(req) ==> r.value == t
    ensures r.Ok? ==> r.value.id == t.id && r.value.userId == t.userId && r.value.createdAt == t.createdAt
    ensures r.Ok? ==> r.value.title == req.title.GetOr(t.title) && r.value.content == req.content.GetOr(t.content)
    ensures r.Ok? ==> r.value.status == req.status.GetOr(t.status)
    ensures r.Ok? && req.status.Some? ==> Consistent(r.value)
    ensures r.Ok? && req.status == Some(StatusCompleted) ==> r.value.completedAt == Some(now)
    ensures r.Ok? && req.status.None? ==> r.value.completedAt == t.completedAt
    ensures r.Ok? && req.deadline == Some("") ==> r.value.deadline.None?
    ensures r.Ok? && req.deadline.None? ==> r.value.deadline == t.deadline
    ensures r.Ok? && req.deadline.Some? && req.deadline.value != "" ==> r.value.deadline == parse(req.deadline.value)
    ensures r.Ok? && !IsEmptyUpdate(req) ==> r.value.updatedAt == now
    ensures r.Ok? && Consistent(t) ==> Consistent(r.value)
  {
    if BadDeadline(req, parse) then Err(ErrDeadlineFormat)
    else if IsEmptyUpdate(req) then Ok(t)
    else
      Ok(t.(title := req.title.GetOr(t.title),
            content := req.content.GetOr(t.content),
            status := req.status.GetOr(t.status),
            completedAt :=
              if req.status.None? then t.completedAt
              else if req.status.value == StatusCompleted then Some(now)
              else None,
            deadline :=
              if req.deadline.None? then t.deadline
              else if req.deadline.value == "" then None
              else parse(req.deadline.value),
            updatedAt := now))
  }

  /** Toggling: status 0 becomes 1 completed now; every other status becomes 0 with no completion time. */
  function Toggled(t: Todo, now: Time): (r: Todo)
    ensures Consistent(r)
    ensures r.status == (if t.status == StatusPending then StatusCompleted else StatusPending)
    ensures t.status == StatusPending ==> r.completedAt == Some(now)
    ensures t.status != StatusPending ==> r.completedAt == None
    ensures r.updatedAt == now
    ensures r.id == t.id && r.userId == t.userId && r.title == t.title && r.content == t.content
    ensures r.deadline == t.deadline && r.createdAt == t.createdAt
  {
    if t.status == StatusPending then t.(status := StatusCompleted, completedAt := Some(now), updatedAt := now)
    else t.(status := StatusPending, completedAt := None, updatedAt := now)
  }

  /** Toggling twice restores a status of 0 or 1; any other status ends at 1. */
  lemma ToggleTwice(t: Todo, now1: Time, now2: Time)
    ensures t.status == StatusPending || t.status == StatusCompleted ==>
      Toggled(Toggled(t, now1), now2).status == t.status
    ensures t.status == StatusPending ==> Toggled(Toggled(t, now1), now2).completedAt.None?
    ensures t.status != StatusPending && t.status != StatusCompleted ==>
      Toggled(Toggled(t, now1), now2).status == StatusCompleted
  {
  }

  /** Replacing the caller's row by an updated or toggled copy is scoped to the
      caller and keeps every row consistent. */
  lemma ReplaceIsScoped(todos: map<int, Todo>, id: int, t: Todo, userId: int)
    requires id in todos && todos[id].userId == userId && t.userId == userId
    requires Consistent(todos[id]) ==> Consistent(t)
    ensures OnlyOwnRows(todos, todos[id := t], userId)
    ensures AllConsistent(todos) ==> AllConsistent(todos[id := t])
  {
  }

  // ---------------------------------------------------------------------
  // Delete and the batch operations

  /** The ids of the caller's rows with status `s`. */
  function OwnedWithStatus(todos: map<int, Todo>, userId: int, s: int): (ids: set<int>)
    ensures forall id :: id in ids <==> id in todos && todos[id].userId == userId && todos[id].status == s
  {
    set id | id in todos && todos[id].userId == userId && todos[id].status == s
  }

  /** `UPDATE todos SET status = to, completed_at = stamp WHERE user_id = userId AND status = from`. */
  function SetStatusWhere(todos: map<int, Todo>, userId: int, from: int, to: int, stamp: Option<Time>, now: Time): (after: map<int, Todo>)
    ensures after.Keys == todos.Keys
    ensures forall id :: id in todos && todos[id].userId == userId && todos[id].status == from ==>
      after[id] == todos[id].(status := to, completedAt := stamp, updatedAt := now)
    ensures forall id :: id in todos && !(todos[id].userId == userId && todos[id].status == from) ==>
      after[id] == todos[id]
  {
    map id | id in todos ::
      if todos[id].userId == userId && todos[id].status == from
      then todos[id].(status := to, completedAt := stamp, updatedAt := now)
      else todos[id]
  }

  /** `DELETE FROM todos WHERE user_id = userId AND status = s`. */
  function DeleteWhere(todos: map<int, Todo>, userId: int, s: int): (after: map<int, Todo>)
    ensures forall id :: id in after <==> id in todos && !(todos[id].userId == userId && todos[id].status == s)
    ensures forall id :: id in after ==> after[id] == todos[id]
  {
    map id | id in todos && !(todos[id].userId == userId && todos[id].status == s) :: todos[id]
  }

  /** Completing in bulk touches exactly the caller's pending rows, leaves none
      pending, and keeps every row consistent. */
  lemma BatchCompleteEffect(todos: map<int, Todo>, userId: int, now: Time)
    ensures var after := SetStatusWhere(todos, userId, StatusPending, StatusCompleted, Some(now), now);
      && OnlyOwnRows(todos, after, userId)
      && (forall id :: id in todos ==> (after[id] != todos[id] <==> id in OwnedWithStatus(todos, userId, StatusPending)))
      && (forall id :: id in OwnedWithStatus(todos, userId, StatusPending) ==>
            after[id] == todos[id].(status := StatusCompleted, completedAt := Some(now), updatedAt := now))
      && OwnedWithStatus(after, userId, StatusPending) == {}
      && (AllConsistent(todos) ==> AllConsistent(after))
  {
    var after := SetStatusWhere(todos, userId, StatusPending, StatusCompleted, Some(now), now);
    assert OwnedWithStatus(after, userId, StatusPending) == {} by {
      forall id | id in after ensures id !in OwnedWithStatus(after, userId, StatusPending) {
      }
    }
  }

  /** Resetting in bulk touches exactly the caller's completed rows, leaves
      none completed, and keeps every row consistent. */
  lemma BatchPendingEffect(todos: map<int, Todo>, userId: int, now: Time)
    ensures var after := SetStatusWhere(todos, userId, StatusCompleted, StatusPending, None, now);
      && OnlyOwnRows(todos, after, userId)
      && (forall id :: id in todos ==> (after[id] != todos[id] <==> id in OwnedWithStatus(todos, userId, StatusCompleted)))
      && (forall id :: id in OwnedWithStatus(todos, userId, StatusCompleted) ==>
            after[id] == todos[id].(status := StatusPending, completedAt := None, updatedAt := now))
      && OwnedWithStatus(after, userId, StatusCompleted) == {}
      && (AllConsistent(todos) ==> AllConsistent(after))
  {
    var after := SetStatusWhere(todos, userId, StatusCompleted, StatusPending, None, now);
    assert OwnedWithStatus(after, userId, StatusCompleted) == {} by {
      forall id | id in after ensures id !in OwnedWithStatus(after, userId, StatusCompleted) {
      }
    }
  }

  /** Deleting by status removes exactly the caller's rows of that status, so
      the number removed is their count; the rest of the table is untouched. */
  lemma {:induction false} DeleteWhereEffect(todos: map<int, Todo>, userId: int, s: int)
    ensures var after := DeleteWhere(todos, userId, s);
      && OnlyOwnRows(todos, after, userId)
      && after.Keys == todos.Keys - OwnedWithStatus(todos, userId, s)
      && |after| == |todos| - |OwnedWithStatus(todos, userId, s)|
      && OwnedWithStatus(after, userId, s) == {}
      && (AllConsistent(todos) ==> AllConsistent(after))
  {
    var after := DeleteWhere(todos, userId, s);
    var gone := OwnedWithStatus(todos, userId, s);
    assert after.Keys == todos.Keys - gone;
    assert gone <= todos.Keys;
    assert todos.Keys == after.Keys + gone;
    assert after.Keys !! gone;
    assert |todos.Keys| == |after.Keys| + |gone|;
    assert OwnedWithStatus(after, userId, s) == {} by {
      forall id | id in after ensures id !in OwnedWithStatus(after, userId, s) {
      }
    }
  }

  /** Removing one row of the caller's is scoped to the caller. */
  lemma RemoveIsScoped(todos: map<int, Todo>, id: int, userId: int)
    requires id in todos && todos[id].userId == userId
    ensures OnlyOwnRows(todos, todos - {id}, userId)
    ensures AllConsistent(todos) ==> AllConsistent(todos - {id})
    ensures |todos - {id}| == |todos| - 1
  {
  }

  // ---------------------------------------------------------------------
  // Statistics

  /** The ids of the caller's rows. */
  function OwnedIds(todos: map<int, Todo>, userId: int): (ids: set<int>)
    ensures forall id :: id in ids <==> id in todos && todos[id].userId == userId
  {
    set id | id in todos && todos[id].userId == userId
  }

  lemma SubsetSize(a: set<int>, b: set<int>)
    requires a <= b
    ensures |a| <= |b|
  {
    assert b == a + (b - a);
  }

  /** The completion rate: 0 for no rows, otherwise completed / total. */
  function CompletionRate(completed: int, total: int): (rate: real)
    requires 0 <= completed <= total
    ensures 0.0 <= rate <= 1.0
    ensures total == 0 ==> rate == 0.0
    ensures total > 0 ==> rate * total as real == completed as real
  {
    if total > 0 then completed as real / total as real else 0.0
  }

  /** The caller's statistics: all rows, status-1 rows, status-0 rows and the completion rate. */
  function Stats(todos: map<int, Todo>, userId: int): (s: TodoStats)
    ensures s.total == |OwnedIds(todos, userId)|
    ensures s.completed == |OwnedWithStatus(todos, userId, StatusCompleted)|
    ensures s.pending == |OwnedWithStatus(todos, userId, StatusPending)|
    ensures s.pending + s.completed <= s.total
    ensures 0.0 <= s.completionRate <= 1.0
    ensures s.total == 0 ==> s.completionRate == 0.0
    ensures s.total > 0 ==> s.completionRate * s.total as real == s.completed as real
  {
    var owned := OwnedIds(todos, userId);
    var done := OwnedWithStatus(todos, userId, StatusCompleted);
    var open := OwnedWithStatus(todos, userId, StatusPending);
    assert done !! open;
    SubsetSize(done + open, owned);
    TodoStats(|owned|, |open|, |done|, CompletionRate(|done|, |owned|))
  }

  /** When every row of the caller's has status 0 or 1, pending and completed add up to the total. */
  lemma StatsPartition(todos: map<int, Todo>, userId: int)
    requires forall id :: id in todos && todos[id].userId == userId ==>
      todos[id].status == StatusPending || todos[id].status == StatusCompleted
    ensures Stats(todos, userId).pending + Stats(todos, userId).completed == Stats(todos, userId).total
  {
    var owned := OwnedIds(todos, userId);
    var done := OwnedWithStatus(todos, userId, StatusCompleted);
    var open := OwnedWithStatus(todos, userId, StatusPending);
    forall id ensures id in owned <==> id in done + open {
    }
    assert owned == done + open;
    assert done !! open;
  }
}
