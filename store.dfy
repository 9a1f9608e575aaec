/** The database and the realtime channel as one object: the three tables, the next value
    of each auto-increment key, and the log of every broadcast. Its methods are the ORM
    calls the route handlers make; each keeps the database invariant. */
module Store {
  import opened Wrappers
  import opened Sorting
  import opened Models

  /** The payload of `taskDeleted`: the object `{ id }` holding the path parameter text. */
  datatype DeletedPayload = DeletedPayload(id: string)

  /** One `io.emit` broadcast. */
  datatype Event =
    | TaskCreated(created: TaskView)
    | TaskUpdated(updated: TaskView)
    | TaskDeleted(deleted: DeletedPayload)

  class EntityStore {
    var users: seq<UserRow>
    var projects: seq<ProjectRow>
    var tasks: seq<TaskRow>
    var nextUserId: int
    var nextProjectId: int
    var nextTaskId: int
    /** Every broadcast so far, oldest first. */
    var events: seq<Event>

    function Db(): Db
      reads this
    {
      Models.Db.Db(users, projects, tasks, nextUserId, nextProjectId, nextTaskId)
    }

    ghost predicate Valid()
      reads this
    {
      DbValid(Db())
    }

    /** An empty database and no broadcasts. */
    constructor()
      ensures Valid() && Db() == EmptyDb && events == []
    {
      users, projects, tasks := [], [], [];
      nextUserId, nextProjectId, nextTaskId := 1, 1, 1;
      events := [];
    }

    /** `io.emit`: the event is appended to the log and nothing else changes. */
    method Emit(e: Event)
      modifies this
      ensures events == old(events) + [e] && Db() == old(Db())
    {
      events := events + [e];
    }

    /** `Task.create`: the model's defaults and validators, then the foreign-key checks,
        then the insert under the next key. */
    method InsertTask(a: TaskAttrs, now: int) returns (r: Option<TaskRow>)
      requires Valid()
      modifies this
      ensures Valid() && events == old(events)
      ensures r.Some? <==>
        NewTask(a, old(nextTaskId), now).Some? &&
        TaskRefsOk(old(projects), old(users), NewTask(a, old(nextTaskId), now).value)
      ensures r.Some? ==>
        && r == NewTask(a, old(nextTaskId), now)
        && Db() == old(Db()).(tasks := old(tasks) + [r.value], nextTaskId := old(nextTaskId) + 1)
      ensures r.None? ==> Db() == old(Db())
    {
      r := NewTask(a, nextTaskId, now);
      if r.Some? && TaskRefsOk(projects, users, r.value) {
        InsertTaskKeepsValid(Db(), r.value);
        tasks := tasks + [r.value];
        nextTaskId := nextTaskId + 1;
      } else {
        r := None;
      }
    }

    /** `task.update` on the stored task `id`: validators, the check of a newly given
        assignee, then the write. */
    method UpdateTaskRow(id: int, c: TaskChanges, now: int) returns (r: Option<TaskRow>)
      requires Valid() && FindTask(tasks, id).Some?
      modifies this
      ensures Valid() && events == old(events)
      ensures
        var u := UpdateTask(FindTask(old(tasks), id).value, c, now);
        r.Some? <==> u.Some? && TaskRefsOk(old(projects), old(users), u.value)
      ensures r.Some? ==>
        && r == UpdateTask(FindTask(old(tasks), id).value, c, now)
        && Db() == old(Db()).(tasks := ReplaceTask(old(tasks), r.value))
      ensures r.None? ==> Db() == old(Db())
    {
      var t := FindTask(tasks, id).value;
      r := UpdateTask(t, c, now);
      if r.Some? && TaskRefsOk(projects, users, r.value) {
        ReplaceTaskKeepsValid(Db(), r.value);
        Load(Db().(tasks := ReplaceTask(tasks, r.value)));
      } else {
        r := None;
      }
    }

    /** `Task.destroy` with a `WHERE` given as the predicate of the rows to keep. */
    method DestroyTasks(keep: TaskRow -> bool)
      requires Valid()
      modifies this
      ensures Valid() && events == old(events)
      ensures Db() == old(Db()).(tasks := Filter(old(tasks), keep))
    {
      RemoveTasksKeepsValid(Db(), keep);
      tasks := Filter(tasks, keep);
    }

    /** `Project.create`: validators, the owner check, then the insert. */
    method InsertProject(a: ProjectAttrs, now: int) returns (r: Option<ProjectRow>)
      requires Valid()
      modifies this
      ensures Valid() && events == old(events)
      ensures r.Some? <==>
        NewProject(a, old(nextProjectId), now).Some? &&
        ProjectRefsOk(old(users), NewProject(a, old(nextProjectId), now).value)
      ensures r.Some? ==>
        && r == NewProject(a, old(nextProjectId), now)
        && Db() == old(Db()).(projects := old(projects) + [r.value], nextProjectId := old(nextProjectId) + 1)
      ensures r.None? ==> Db() == old(Db())
    {
      r := NewProject(a, nextProjectId, now);
      if r.Some? && ProjectRefsOk(users, r.value) {
        InsertProjectKeepsValid(Db(), r.value);
        projects := projects + [r.value];
        nextProjectId := nextProjectId + 1;
      } else {
        r := None;
      }
    }

    /** `project.update` on the stored project `id`. */
    method UpdateProjectRow(id: int, c: ProjectChanges, now: int) returns (r: Option<ProjectRow>)
      requires Valid() && FindProject(projects, id).Some?
      modifies this
      ensures Valid() && events == old(events)
      ensures r == UpdateProject(FindProject(old(projects), id).value, c, now)
      ensures r.Some? ==> Db() == old(Db()).(projects := ReplaceProject(old(projects), r.value))
      ensures r.None? ==> Db() == old(Db())
    {
      var p := FindProject(projects, id).value;
      r := UpdateProject(p, c, now);
      if r.Some? {
        assert ProjectRefsOk(users, p);
        ReplaceProjectKeepsValid(Db(), r.value);
        Load(Db().(projects := ReplaceProject(projects, r.value)));
      }
    }

    /** `Project.destroy` with a `WHERE` given as the predicate of the rows to keep; the
        tasks of every deleted project go with it (`ON DELETE CASCADE`). */
    method DestroyProjects(keep: ProjectRow -> bool)
      requires Valid()
      modifies this
      ensures Valid() && events == old(events)
      ensures projects == Filter(old(projects), keep)
      ensures Db() == old(Db()).(projects := projects, tasks := Filter(old(tasks), ProjectIn(projects)))
    {
      RemoveProjectsKeepsValid(Db(), keep);
      projects := Filter(projects, keep);
      tasks := Filter(tasks, ProjectIn(projects));
    }

    /** `User.create`: validators, then the two unique indexes, then the insert. */
    method InsertUser(a: UserAttrs, now: int) returns (r: Option<UserRow>)
      requires Valid()
      modifies this
      ensures Valid() && events == old(events)
      ensures
        var n := NewUser(a, old(nextUserId), now);
        r.Some? <==> n.Some? && LoginsFree(old(users), n.value.username, n.value.email)
      ensures r.Some? ==>
        && r == NewUser(a, old(nextUserId), now)
        && Db() == old(Db()).(users := old(users) + [r.value], nextUserId := old(nextUserId) + 1)
      ensures r.None? ==> Db() == old(Db())
    {
      r := NewUser(a, nextUserId, now);
      if r.Some? && LoginsFree(users, r.value.username, r.value.email) {
        InsertUserKeepsValid(Db(), r.value);
        users := users + [r.value];
        nextUserId := nextUserId + 1;
      } else {
        r := None;
      }
    }

    /** `user.update` on the stored user `id`: validators, then the unique indexes against
        every other user, then the write. */
    method UpdateUserRow(id: int, c: UserChanges, now: int) returns (r: Option<UserRow>)
      requires Valid() && FindUser(users, id).Some?
      modifies this
      ensures Valid() && events == old(events)
      ensures
        var n := UpdateUser(FindUser(old(users), id).value, c, now);
        r.Some? <==> n.Some? && LoginsFreeExcept(old(users), id, n.value.username, n.value.email)
      ensures r.Some? ==>
        && r == UpdateUser(FindUser(old(users), id).value, c, now)
        && Db() == old(Db()).(users := ReplaceUser(old(users), r.value))
      ensures r.None? ==> Db() == old(Db())
    {
      var u := FindUser(users, id).value;
      r := UpdateUser(u, c, now);
      if r.Some? && LoginsFreeExcept(users, id, r.value.username, r.value.email) {
        ReplaceUserKeepsValid(Db(), r.value);
        Load(Db().(users := ReplaceUser(users, r.value)));
      } else {
        r := None;
      }
    }

    /** `user.destroy()`: the row goes, and the cascades remove the projects it owns with
        their tasks and unassign its tasks. */
    method DestroyUser(id: int)
      requires Valid()
      modifies this
      ensures Valid() && events == old(events)
      ensures Db() == DeleteUserCascade(old(Db()), id)
    {
      RemoveUserKeepsValid(Db(), id);
      var d := DeleteUserCascade(Db(), id);
      Load(d);
    }

    /** Overwrites every table and counter with those of `d`. */
    method Load(d: Db)
      modifies this
      ensures Db() == d && events == old(events)
    {
      users, projects, tasks := d.users, d.projects, d.tasks;
      nextUserId, nextProjectId, nextTaskId := d.nextUserId, d.nextProjectId, d.nextTaskId;
    }
  }
}
