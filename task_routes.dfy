/** The `/api/tasks` handlers: list with filters, read one, create, update and delete. The
    three writes broadcast the affected task on the realtime channel. */
module TaskRoutes {
  import opened Wrappers
  import opened Strings
  import opened Sorting
  import opened Domain
  import opened Models
  import opened Store
  import opened Http

  /** The query string of the listing; a parameter that is absent is `None`. */
  datatype TaskQuery = TaskQuery(
    projectId: Option<string>, status: Option<string>, priority: Option<string>, assigneeId: Option<string>)

  /** The JSON body of a create or an update; a key that is absent is `Absent`. */
  datatype TaskBody = TaskBody(
    title: Field<string>, description: Field<string>, priority: Field<string>, status: Field<string>,
    projectId: Field<int>, assigneeId: Field<int>, dueDate: Field<string>)

  /** A task agrees with the equalities the `where` object holds. A key column compares with
      text the way an integer column does: the text must be the decimal numeral of the key. */
  predicate Satisfies(where: TaskQuery, t: TaskRow) {
    && (where.projectId.Some? ==> DecimalId(where.projectId.value) == Some(t.projectId))
    && (where.status.Some? ==> where.status.value == StatusName(t.status))
    && (where.priority.Some? ==> where.priority.value == PriorityName(t.priority))
    && (where.assigneeId.Some? ==>
          t.assigneeId.Some? && DecimalId(where.assigneeId.value) == Some(t.assigneeId.value))
  }

  /** What the listing selects: the tasks that agree with every parameter given a non-empty
      value; empty and absent parameters select everything. */
  predicate MatchesQuery(q: TaskQuery, t: TaskRow) {
    && (Given(q.projectId) ==> DecimalId(q.projectId.value) == Some(t.projectId))
    && (Given(q.status) ==> q.status.value == StatusName(t.status))
    && (Given(q.priority) ==> q.priority.value == PriorityName(t.priority))
    && (Given(q.assigneeId) ==>
          t.assigneeId.Some? && DecimalId(q.assigneeId.value) == Some(t.assigneeId.value))
  }

  function QueryFilter(q: TaskQuery): TaskRow -> bool {
    (t: TaskRow) => MatchesQuery(q, t)
  }

  /** `order: [['createdAt', 'DESC']]`. */
  function NewerOrSame(a: TaskRow, b: TaskRow): bool {
    a.createdAt >= b.createdAt
  }

  lemma NewerOrSameIsTotal()
    ensures TotalPreorder(NewerOrSame)
  {
  }

  /** The rows of the listing, newest first. */
  function ListedTasks(tasks: seq<TaskRow>, q: TaskQuery): seq<TaskRow> {
    SortBy(Filter(tasks, QueryFilter(q)), NewerOrSame)
  }

  /** The listing holds exactly the matching tasks, each as often as it is stored, ordered
      by creation time from newest to oldest. */
  lemma ListedTasksSpec(tasks: seq<TaskRow>, q: TaskQuery)
    ensures multiset(ListedTasks(tasks, q)) == multiset(Filter(tasks, QueryFilter(q)))
    ensures forall t :: t in ListedTasks(tasks, q) <==> t in tasks && MatchesQuery(q, t)
    ensures SortedBy(ListedTasks(tasks, q), NewerOrSame)
  {
    var r := ListedTasks(tasks, q);
    var f := Filter(tasks, QueryFilter(q));
    forall t ensures t in r <==> t in tasks && MatchesQuery(q, t) {
      assert t in r <==> t in multiset(r);
      assert t in f <==> t in multiset(f);
    }
    NewerOrSameIsTotal();
    SortBySorted(f, NewerOrSame);
  }

  /** Each task with its project and assignee included. */
  function Views(db: Db, rows: seq<TaskRow>): (r: seq<TaskView>)
    ensures |r| == |rows|
    ensures forall i :: 0 <= i < |r| ==> r[i] == ViewTask(db, rows[i])
  {
    seq(|rows|, i requires 0 <= i < |rows| => ViewTask(db, rows[i]))
  }

  /** `findByPk` with the path parameter: the task whose key the text denotes. */
  function LookupTask(tasks: seq<TaskRow>, id: string): (r: Option<TaskRow>)
    ensures r.Some? ==> r.value in tasks && DecimalId(id) == Some(r.value.id)
    ensures r.None? <==> forall t :: t in tasks ==> DecimalId(id) != Some(t.id)
  {
    match DecimalId(id)
    case None => None
    case Some(k) => FindTask(tasks, k)
  }

  /** The attribute object the create handler builds: priority `normal` unless a truthy one
      is given, status always `todo`, and the due date `null` unless a truthy one is given. */
  function CreateAttrs(b: TaskBody): TaskAttrs {
    TaskAttrs(b.title, b.description,
              if TruthyText(b.priority) then b.priority else Present("normal"),
              Present("todo"), b.projectId, b.assigneeId,
              if TruthyText(b.dueDate) then b.dueDate else Null)
  }

  /** The attribute object the update handler builds: the body's project is never read,
      and the due date is `null` unless a truthy one is given. */
  function UpdateChanges(b: TaskBody): TaskChanges {
    TaskChanges(b.title, b.description, b.priority, b.status, b.assigneeId,
                if TruthyText(b.dueDate) then b.dueDate else Null)
  }

  /** A created task is always `todo`, is `normal` unless a truthy priority was sent, and has
      no due date unless a truthy one was sent; it is created exactly when the title has 1 to
      200 characters, whatever priority text is sent. */
  lemma CreatedTaskDefaults(b: TaskBody, id: int, now: int)
    requires TruthyText(b.title) && TruthyNumber(b.projectId)
    ensures NewTask(CreateAttrs(b), id, now).Some? <==> |b.title.value| <= 200
    ensures
      var r := NewTask(CreateAttrs(b), id, now);
      r.Some? ==>
        && r.value.status == Todo
        && (!TruthyText(b.priority) ==> r.value.priority == Normal)
        && (TruthyText(b.priority) ==> PriorityName(r.value.priority) == b.priority.value)
        && (!TruthyText(b.dueDate) ==> r.value.dueDate.None?)
        && (TruthyText(b.dueDate) ==> r.value.dueDate == Some(b.dueDate.value))
        && r.value.projectId == b.projectId.value
  {
    var a := CreateAttrs(b);
    var r := NewTask(a, id, now);
    assert ParseStatus("todo") == Todo;
    assert ParsePriority("normal") == Normal;
    if r.Some? {
      assert StatusName(r.value.status) == "todo";
      assert !TruthyText(b.priority) ==> PriorityName(r.value.priority) == "normal";
    }
  }

  /** An update never moves a task to another project, and clears the due date unless a
      truthy one is sent. */
  lemma UpdateKeepsProject(t: TaskRow, b: TaskBody, now: int)
    ensures
      var r := UpdateTask(t, UpdateChanges(b), now);
      r.Some? ==>
        && r.value.projectId == t.projectId
        && r.value.dueDate == (if TruthyText(b.dueDate) then Some(b.dueDate.value) else None)
  {
  }

  /** A `where` holding exactly the truthy parameters selects what the query promises. */
  lemma WhereMatchesQuery(q: TaskQuery, where: TaskQuery)
    requires where.projectId == if Given(q.projectId) then q.projectId else None
    requires where.status == if Given(q.status) then q.status else None
    requires where.priority == if Given(q.priority) then q.priority else None
    requires where.assigneeId == if Given(q.assigneeId) then q.assigneeId else None
    ensures forall t :: Satisfies(where, t) == MatchesQuery(q, t)
  {
  }

  /** `GET /api/tasks`: the matching tasks newest first, each with its project and assignee. */
  method GetTasks(s: EntityStore, q: TaskQuery) returns (resp: Response<seq<TaskView>>)
    requires s.Valid()
    ensures resp == Ok(200, Views(s.Db(), ListedTasks(s.tasks, q)), "Tasks retrieved successfully")
  {
    var where := TaskQuery(None, None, None, None);
    if Given(q.projectId) { where := where.(projectId := q.projectId); }
    if Given(q.status) { where := where.(status := q.status); }
    if Given(q.priority) { where := where.(priority := q.priority); }
    if Given(q.assigneeId) { where := where.(assigneeId := q.assigneeId); }
    WhereMatchesQuery(q, where);
    var keep := (t: TaskRow) => Satisfies(where, t);
    FilterCongruent(s.tasks, keep, QueryFilter(q));
    var rows := SortBy(Filter(s.tasks, keep), NewerOrSame);
    resp := Ok(200, Views(s.Db(), rows), "Tasks retrieved successfully");
  }

  /** `GET /api/tasks/:id`. */
  method GetTask(s: EntityStore, id: string) returns (resp: Response<TaskView>)
    requires s.Valid()
    ensures LookupTask(s.tasks, id).None? ==> resp == Fail(404, "Task not found")
    ensures LookupTask(s.tasks, id).Some? ==>
      && resp == Ok(200, ViewTask(s.Db(), LookupTask(s.tasks, id).value), "Task retrieved successfully")
      && resp.data.value.project.Some?
  {
    var t := LookupTask(s.tasks, id);
    if t.None? {
      return Fail(404, "Task not found");
    }
    assert TaskRefsOk(s.projects, s.users, t.value);
    resp := Ok(200, ViewTask(s.Db(), t.value), "Task retrieved successfully");
  }

  /** `POST /api/tasks`: create, re-read with the associations, broadcast `taskCreated`. */
  method PostTask(s: EntityStore, b: TaskBody, now: int) returns (resp: Response<TaskView>)
    requires s.Valid()
    modifies s
    ensures s.Valid()
    ensures !TruthyText(b.title) || !TruthyNumber(b.projectId) ==>
      resp == Fail(400, "Title and projectId are required")
    ensures
      var n := NewTask(CreateAttrs(b), old(s.nextTaskId), now);
      && (resp.success <==>
            TruthyText(b.title) && TruthyNumber(b.projectId) &&
            n.Some? && TaskRefsOk(old(s.projects), old(s.users), n.value))
      && (resp.success ==>
            && s.Db() == old(s.Db()).(tasks := old(s.tasks) + [n.value], nextTaskId := old(s.nextTaskId) + 1)
            && resp == Ok(201, ViewTask(s.Db(), n.value), "Task created successfully")
            && s.events == old(s.events) + [TaskCreated(resp.data.value)]
            && resp.data.value.project.Some?)
    ensures !resp.success ==> s.Db() == old(s.Db()) && s.events == old(s.events)
    ensures TruthyText(b.title) && TruthyNumber(b.projectId) && !resp.success ==>
      resp == Fail(500, "Failed to create task")
  {
    if !TruthyText(b.title) || !TruthyNumber(b.projectId) {
      return Fail(400, "Title and projectId are required");
    }
    var row := s.InsertTask(CreateAttrs(b), now);
    if row.None? {
      return Fail(500, "Failed to create task");
    }
    assert row.value in s.tasks;
    var view := ViewTask(s.Db(), row.value);
    s.Emit(TaskCreated(view));
    resp := Ok(201, view, "Task created successfully");
  }

  /** `PUT /api/tasks/:id`: update, re-read with the associations, broadcast `taskUpdated`. */
  method PutTask(s: EntityStore, id: string, b: TaskBody, now: int) returns (resp: Response<TaskView>)
    requires s.Valid()
    modifies s
    ensures s.Valid()
    ensures LookupTask(old(s.tasks), id).None? ==> resp == Fail(404, "Task not found")
    ensures
      var t := LookupTask(old(s.tasks), id);
      var u := if t.Some? then UpdateTask(t.value, UpdateChanges(b), now) else None;
      && (resp.success <==> u.Some? && TaskRefsOk(old(s.projects), old(s.users), u.value))
      && (resp.success ==>
            && s.Db() == old(s.Db()).(tasks := ReplaceTask(old(s.tasks), u.value))
            && resp == Ok(200, ViewTask(s.Db(), u.value), "Task updated successfully")
            && s.events == old(s.events) + [TaskUpdated(resp.data.value)]
            && resp.data.value.project.Some?)
      && (t.Some? && !resp.success ==> resp == Fail(500, "Failed to update task"))
    ensures !resp.success ==> s.Db() == old(s.Db()) && s.events == old(s.events)
  {
    var t := LookupTask(s.tasks, id);
    if t.None? {
      return Fail(404, "Task not found");
    }
    var row := s.UpdateTaskRow(t.value.id, UpdateChanges(b), now);
    if row.None? {
      return Fail(500, "Failed to update task");
    }
    assert row.value in ReplaceTask(old(s.tasks), row.value) by {
      var i :| 0 <= i < |old(s.tasks)| && old(s.tasks)[i] == t.value;
      assert s.tasks[i] == row.value;
    }
    var view := ViewTask(s.Db(), row.value);
    s.Emit(TaskUpdated(view));
    resp := Ok(200, view, "Task updated successfully");
  }

  /** `DELETE /api/tasks/:id`: remove the task and broadcast `taskDeleted` with the path
      parameter as it was written. */
  method DeleteTask(s: EntityStore, id: string) returns (resp: Response<TaskView>)
    requires s.Valid()
    modifies s
    ensures s.Valid()
    ensures LookupTask(old(s.tasks), id).None? ==>
      resp == Fail(404, "Task not found") && s.Db() == old(s.Db()) && s.events == old(s.events)
    ensures LookupTask(old(s.tasks), id).Some? ==>
      && resp == Ack("Task deleted successfully")
      && s.Db() == old(s.Db()).(tasks := Filter(old(s.tasks), TaskIdIsNot(LookupTask(old(s.tasks), id).value.id)))
      && (forall t :: t in s.tasks <==> t in old(s.tasks) && DecimalId(id) != Some(t.id))
      && s.events == old(s.events) + [TaskDeleted(DeletedPayload(id))]
  {
    var t := LookupTask(s.tasks, id);
    if t.None? {
      return Fail(404, "Task not found");
    }
    s.DestroyTasks(TaskIdIsNot(t.value.id));
    s.Emit(TaskDeleted(DeletedPayload(id)));
    resp := Ack("Task deleted successfully");
  }
}
