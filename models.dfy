/** The three tables of the board (users, projects, tasks), the checks the ORM's model
    definitions apply before a row is written, a snapshot of the whole database with the
    invariant every write keeps, and the joined shapes the handlers return. */
module Models {
  import opened Wrappers
  import opened Strings
  import opened Sorting
  import opened Domain
  import opened Email

  /** A row of `users`. Times are milliseconds since the epoch. */
  datatype UserRow = UserRow(
    id: int, username: string, email: string, name: string, password: string,
    avatar: Option<string>, createdAt: int, updatedAt: int)

  /** A row of `projects`. */
  datatype ProjectRow = ProjectRow(
    id: int, name: string, description: Option<string>, ownerId: int,
    createdAt: int, updatedAt: int)

  /** A row of `tasks`. The non-null columns have plain types and the nullable ones
      `Option` types; the due date is kept as the text the client sent. */
  datatype TaskRow = TaskRow(
    id: int, title: string, description: Option<string>, priority: Priority,
    status: TaskStatus, projectId: int, assigneeId: Option<int>, dueDate: Option<string>,
    createdAt: int, updatedAt: int)

  /** The `len: [lo, hi]` validator. */
  predicate LengthIn(s: string, lo: nat, hi: nat) {
    lo <= |s| <= hi
  }

  predicate ValidTask(t: TaskRow) {
    LengthIn(t.title, 1, 200)
  }

  predicate ValidUser(u: UserRow) {
    && LengthIn(u.username, 3, 50)
    && IsEmailShape(u.email)
    && LengthIn(u.name, 1, 100)
    && LengthIn(u.password, 6, 255)
  }

  predicate ValidProject(p: ProjectRow) {
    LengthIn(p.name, 1, 100)
  }

  /** How an update leaves a non-null column: a missing key keeps it, a value replaces it. */
  predicate RequiredApplied<T(==)>(f: Field<T>, before: T, after: T) {
    match f
    case Absent => after == before
    case Null => false
    case Present(v) => after == v
  }

  /** How an update leaves a nullable column: a missing key keeps it, `null` clears it and
      a value replaces it. */
  predicate NullableApplied<T(==)>(f: Field<T>, before: Option<T>, after: Option<T>) {
    match f
    case Absent => after == before
    case Null => after == None
    case Present(v) => after == Some(v)
  }

  function Required<T>(f: Field<T>, current: T): Option<T> {
    match f
    case Absent => Some(current)
    case Null => None
    case Present(v) => Some(v)
  }

  function Nullable<T>(f: Field<T>, current: Option<T>): Option<T> {
    match f
    case Absent => current
    case Null => None
    case Present(v) => Some(v)
  }

  /** A non-null ENUM column on SQLite: a missing key takes the current (or default) value,
      `null` fails, and any text is stored as it is. */
  function EnumValue<E>(f: Field<string>, current: E, parse: string -> E): Option<E> {
    match f
    case Absent => Some(current)
    case Null => None
    case Present(s) => Some(parse(s))
  }

  /** The attribute object handed to `Task.create`. */
  datatype TaskAttrs = TaskAttrs(
    title: Field<string>, description: Field<string>, priority: Field<string>,
    status: Field<string>, projectId: Field<int>, assigneeId: Field<int>, dueDate: Field<string>)

  /** `Task.create` up to the insert: the defaults and validators of the task model applied
      to `a`, or `None` when validation fails. A priority or status outside the enumeration
      passes and is stored as sent. */
  function NewTask(a: TaskAttrs, id: int, now: int): (r: Option<TaskRow>)
    ensures r.Some? <==>
      && a.title.Present? && LengthIn(a.title.value, 1, 200)
      && a.projectId.Present? && !a.priority.Null? && !a.status.Null?
    ensures r.Some? ==> ValidTask(r.value)
    ensures r.Some? ==>
      && r.value.id == id && r.value.createdAt == now && r.value.updatedAt == now
      && r.value.title == a.title.value && r.value.projectId == a.projectId.value
      && r.value.description == a.description.AsOption()
      && r.value.assigneeId == a.assigneeId.AsOption()
      && r.value.dueDate == a.dueDate.AsOption()
    ensures r.Some? && a.priority.Absent? ==> r.value.priority == Normal
    ensures r.Some? && a.priority.Present? ==> PriorityName(r.value.priority) == a.priority.value
    ensures r.Some? && a.status.Absent? ==> r.value.status == Todo
    ensures r.Some? && a.status.Present? ==> StatusName(r.value.status) == a.status.value
  {
    if !a.title.Present? || !LengthIn(a.title.value, 1, 200) || !a.projectId.Present? then None
    else
      match (EnumValue(a.priority, Normal, ParsePriority), EnumValue(a.status, Todo, ParseStatus))
      case (Some(p), Some(st)) =>
        Some(TaskRow(id, a.title.value, a.description.AsOption(), p, st, a.projectId.value,
                     a.assigneeId.AsOption(), a.dueDate.AsOption(), now, now))
      case _ => None
  }

  /** The attribute object handed to `task.update`; the project of a task is never among them. */
  datatype TaskChanges = TaskChanges(
    title: Field<string>, description: Field<string>, priority: Field<string>,
    status: Field<string>, assigneeId: Field<int>, dueDate: Field<string>)

  /** `task.update` up to the write: keys that are missing leave their column alone, and
      `save` moves `updatedAt` only when some column took a new value. */
  function UpdateTask(t: TaskRow, c: TaskChanges, now: int): (r: Option<TaskRow>)
    ensures r.Some? <==>
      && !c.title.Null? && (c.title.Present? ==> LengthIn(c.title.value, 1, 200))
      && !c.priority.Null? && !c.status.Null?
    ensures r.Some? ==>
      && r.value.id == t.id && r.value.projectId == t.projectId
      && r.value.createdAt == t.createdAt
      && r.value.updatedAt == (if r.value.(updatedAt := t.updatedAt) == t then t.updatedAt else now)
      && RequiredApplied(c.title, t.title, r.value.title)
      && NullableApplied(c.description, t.description, r.value.description)
      && NullableApplied(c.assigneeId, t.assigneeId, r.value.assigneeId)
      && NullableApplied(c.dueDate, t.dueDate, r.value.dueDate)
    ensures r.Some? && c.priority.Absent? ==> r.value.priority == t.priority
    ensures r.Some? && c.priority.Present? ==> PriorityName(r.value.priority) == c.priority.value
    ensures r.Some? && c.status.Absent? ==> r.value.status == t.status
    ensures r.Some? && c.status.Present? ==> StatusName(r.value.status) == c.status.value
    ensures r.Some? && ValidTask(t) ==> ValidTask(r.value)
  {
    if c.title.Null? || (c.title.Present? && !LengthIn(c.title.value, 1, 200)) then None
    else
      match (EnumValue(c.priority, t.priority, ParsePriority), EnumValue(c.status, t.status, ParseStatus))
      case (Some(p), Some(st)) =>
        var r := t.(title := Required(c.title, t.title).value,
                    description := Nullable(c.description, t.description),
                    priority := p, status := st,
                    assigneeId := Nullable(c.assigneeId, t.assigneeId),
                    dueDate := Nullable(c.dueDate, t.dueDate));
        Some(if r == t then t else r.(updatedAt := now))
      case _ => None
  }

  /** The attribute object handed to `User.create`. */
  datatype UserAttrs = UserAttrs(
    username: Field<string>, email: Field<string>, name: Field<string>,
    password: Field<string>, avatar: Field<string>)

  /** `User.create` up to the insert: every non-null column must be given and pass its validator. */
  function NewUser(a: UserAttrs, id: int, now: int): (r: Option<UserRow>)
    ensures r.Some? <==>
      && a.username.Present? && a.email.Present? && a.name.Present? && a.password.Present?
      && LengthIn(a.username.value, 3, 50) && IsEmailShape(a.email.value)
      && LengthIn(a.name.value, 1, 100) && LengthIn(a.password.value, 6, 255)
    ensures r.Some? ==> ValidUser(r.value)
    ensures r.Some? ==>
      && r.value.id == id && r.value.createdAt == now && r.value.updatedAt == now
      && r.value.username == a.username.value && r.value.email == a.email.value
      && r.value.name == a.name.value && r.value.password == a.password.value
      && r.value.avatar == a.avatar.AsOption()
  {
    if && a.username.Present? && a.email.Present? && a.name.Present? && a.password.Present?
       && LengthIn(a.username.value, 3, 50) && IsEmailShape(a.email.value)
       && LengthIn(a.name.value, 1, 100) && LengthIn(a.password.value, 6, 255)
    then
      Some(UserRow(id, a.username.value, a.email.value, a.name.value, a.password.value,
                   a.avatar.AsOption(), now, now))
    else None
  }

  /** The attribute object handed to `user.update`. */
  datatype UserChanges = UserChanges(
    username: Field<string>, email: Field<string>, name: Field<string>,
    password: Field<string>, avatar: Field<string>)

  /** A change set that names no column. */
  const NoUserChanges := UserChanges(Absent, Absent, Absent, Absent, Absent)

  /** `user.update` up to the write; `updatedAt` moves only when some column changed. */
  function UpdateUser(u: UserRow, c: UserChanges, now: int): (r: Option<UserRow>)
    ensures r.Some? <==>
      && !c.username.Null? && !c.email.Null? && !c.name.Null? && !c.password.Null?
      && (c.username.Present? ==> LengthIn(c.username.value, 3, 50))
      && (c.email.Present? ==> IsEmailShape(c.email.value))
      && (c.name.Present? ==> LengthIn(c.name.value, 1, 100))
      && (c.password.Present? ==> LengthIn(c.password.value, 6, 255))
    ensures r.Some? ==>
      && r.value.id == u.id && r.value.createdAt == u.createdAt
      && r.value.updatedAt == (if r.value.(updatedAt := u.updatedAt) == u then u.updatedAt else now)
      && RequiredApplied(c.username, u.username, r.value.username)
      && RequiredApplied(c.email, u.email, r.value.email)
      && RequiredApplied(c.name, u.name, r.value.name)
      && RequiredApplied(c.password, u.password, r.value.password)
      && NullableApplied(c.avatar, u.avatar, r.value.avatar)
    ensures r.Some? && ValidUser(u) ==> ValidUser(r.value)
  {
    if || c.username.Null? || c.email.Null? || c.name.Null? || c.password.Null?
       || (c.username.Present? && !LengthIn(c.username.value, 3, 50))
       || (c.email.Present? && !IsEmailShape(c.email.value))
       || (c.name.Present? && !LengthIn(c.name.value, 1, 100))
       || (c.password.Present? && !LengthIn(c.password.value, 6, 255))
    then None
    else
      var r := u.(username := Required(c.username, u.username).value,
                  email := Required(c.email, u.email).value,
                  name := Required(c.name, u.name).value,
                  password := Required(c.password, u.password).value,
                  avatar := Nullable(c.avatar, u.avatar));
      Some(if r == u then u else r.(updatedAt := now))
  }

  /** The attribute object handed to `Project.create`. */
  datatype ProjectAttrs = ProjectAttrs(name: Field<string>, description: Field<string>, ownerId: Field<int>)

  /** `Project.create` up to the insert. */
  function NewProject(a: ProjectAttrs, id: int, now: int): (r: Option<ProjectRow>)
    ensures r.Some? <==> a.name.Present? && LengthIn(a.name.value, 1, 100) && a.ownerId.Present?
    ensures r.Some? ==> ValidProject(r.value)
    ensures r.Some? ==>
      && r.value.id == id && r.value.createdAt == now && r.value.updatedAt == now
      && r.value.name == a.name.value && r.value.ownerId == a.ownerId.value
      && r.value.description == a.description.AsOption()
  {
    if a.name.Present? && LengthIn(a.name.value, 1, 100) && a.ownerId.Present? then
      Some(ProjectRow(id, a.name.value, a.description.AsOption(), a.ownerId.value, now, now))
    else None
  }

  /** The attribute object handed to `project.update`: the owner is never among them. */
  datatype ProjectChanges = ProjectChanges(name: Field<string>, description: Field<string>)

  /** `project.update` up to the write; `updatedAt` moves only when some column changed. */
  function UpdateProject(p: ProjectRow, c: ProjectChanges, now: int): (r: Option<ProjectRow>)
    ensures r.Some? <==> !c.name.Null? && (c.name.Present? ==> LengthIn(c.name.value, 1, 100))
    ensures r.Some? ==>
      && r.value.id == p.id && r.value.ownerId == p.ownerId
      && r.value.createdAt == p.createdAt
      && r.value.updatedAt == (if r.value.(updatedAt := p.updatedAt) == p then p.updatedAt else now)
      && RequiredApplied(c.name, p.name, r.value.name)
      && NullableApplied(c.description, p.description, r.value.description)
    ensures r.Some? && ValidProject(p) ==> ValidProject(r.value)
  {
    if c.name.Null? || (c.name.Present? && !LengthIn(c.name.value, 1, 100)) then None
    else
      var r := p.(name := Required(c.name, p.name).value,
                  description := Nullable(c.description, p.description));
      Some(if r == p then p else r.(updatedAt := now))
  }

  /** A snapshot of the database: the three tables in insertion order and the next value of
      each auto-increment key. */
  datatype Db = Db(
    users: seq<UserRow>, projects: seq<ProjectRow>, tasks: seq<TaskRow>,
    nextUserId: int, nextProjectId: int, nextTaskId: int)

  const EmptyDb := Db([], [], [], 1, 1, 1)

  function UserKey(u: UserRow): int { u.id }
  function ProjectKey(p: ProjectRow): int { p.id }
  function TaskKey(t: TaskRow): int { t.id }

  /** The two unique indexes of `users`: no two rows share a username or an email. */
  ghost predicate UniqueLogins(us: seq<UserRow>) {
    forall u, v :: u in us && v in us && u != v ==> u.username != v.username && u.email != v.email
  }

  /** No stored user holds `username` or `email`. */
  predicate LoginsFree(users: seq<UserRow>, username: string, email: string) {
    forall v :: v in users ==> v.username != username && v.email != email
  }

  /** No stored user other than `id` holds `username` or `email`. */
  predicate LoginsFreeExcept(users: seq<UserRow>, id: int, username: string, email: string) {
    forall v :: v in users && v.id != id ==> v.username != username && v.email != email
  }

  /** Each user passes the user model's validators, keys are below the next auto-increment
      value and strictly increase along the table, and logins are unique. */
  ghost predicate UsersValid(users: seq<UserRow>, next: int) {
    && (forall u :: u in users ==> ValidUser(u) && 1 <= u.id < next)
    && IncreasingBy(users, UserKey)
    && UniqueLogins(users)
  }

  ghost predicate ProjectsValid(projects: seq<ProjectRow>, next: int) {
    && (forall p :: p in projects ==> ValidProject(p) && 1 <= p.id < next)
    && IncreasingBy(projects, ProjectKey)
  }

  ghost predicate TasksValid(tasks: seq<TaskRow>, next: int) {
    && (forall t :: t in tasks ==> ValidTask(t) && 1 <= t.id < next)
    && IncreasingBy(tasks, TaskKey)
  }

  predicate HasUser(users: seq<UserRow>, id: int) { exists u :: u in users && u.id == id }
  predicate HasProject(projects: seq<ProjectRow>, id: int) { exists p :: p in projects && p.id == id }

  /** The foreign keys of a task point at stored rows: its project, and its assignee when set. */
  predicate TaskRefsOk(projects: seq<ProjectRow>, users: seq<UserRow>, t: TaskRow) {
    HasProject(projects, t.projectId) && (t.assigneeId.Some? ==> HasUser(users, t.assigneeId.value))
  }

  /** The owner of a project is a stored user. */
  predicate ProjectRefsOk(users: seq<UserRow>, p: ProjectRow) {
    HasUser(users, p.ownerId)
  }

  /** Referential integrity, which the database's foreign-key constraints maintain. */
  ghost predicate RefsValid(db: Db) {
    && (forall p :: p in db.projects ==> ProjectRefsOk(db.users, p))
    && (forall t :: t in db.tasks ==> TaskRefsOk(db.projects, db.users, t))
  }

  /** What every write keeps: each table valid, keys increasing along it (so unique), and
      every foreign key pointing at a stored row. */
  ghost predicate DbValid(db: Db) {
    && 1 <= db.nextUserId && 1 <= db.nextProjectId && 1 <= db.nextTaskId
    && UsersValid(db.users, db.nextUserId)
    && ProjectsValid(db.projects, db.nextProjectId)
    && TasksValid(db.tasks, db.nextTaskId)
    && RefsValid(db)
  }

  /** Auto-increment keys are primary keys: two stored tasks never share an id. */
  lemma {:induction false} TaskIdsUnique(db: Db, i: int, j: int)
    requires DbValid(db)
    requires 0 <= i < |db.tasks| && 0 <= j < |db.tasks| && i != j
    ensures db.tasks[i].id != db.tasks[j].id
  {
    if i < j {
      assert TaskKey(db.tasks[i]) < TaskKey(db.tasks[j]);
    } else {
      assert TaskKey(db.tasks[j]) < TaskKey(db.tasks[i]);
    }
  }

  /** Two stored projects never share an id. */
  lemma {:induction false} ProjectIdsUnique(db: Db, i: int, j: int)
    requires DbValid(db)
    requires 0 <= i < |db.projects| && 0 <= j < |db.projects| && i != j
    ensures db.projects[i].id != db.projects[j].id
  {
    if i < j {
      assert ProjectKey(db.projects[i]) < ProjectKey(db.projects[j]);
    } else {
      assert ProjectKey(db.projects[j]) < ProjectKey(db.projects[i]);
    }
  }

  // Row predicates used as `WHERE` clauses.

  function TaskIdIs(id: int): TaskRow -> bool { (t: TaskRow) => t.id == id }
  function TaskIdIsNot(id: int): TaskRow -> bool { (t: TaskRow) => t.id != id }
  function InProject(pid: int): TaskRow -> bool { (t: TaskRow) => t.projectId == pid }
  function NotInProject(pid: int): TaskRow -> bool { (t: TaskRow) => t.projectId != pid }
  function NotAssignedTo(uid: int): TaskRow -> bool { (t: TaskRow) => t.assigneeId != Some(uid) }
  function ProjectIdIs(id: int): ProjectRow -> bool { (p: ProjectRow) => p.id == id }
  function ProjectIdIsNot(id: int): ProjectRow -> bool { (p: ProjectRow) => p.id != id }
  function NotOwnedBy(uid: int): ProjectRow -> bool { (p: ProjectRow) => p.ownerId != uid }
  function UserIdIs(id: int): UserRow -> bool { (u: UserRow) => u.id == id }
  function UserIdIsNot(id: int): UserRow -> bool { (u: UserRow) => u.id != id }

  /** `Task.findByPk(id)`. */
  function FindTask(tasks: seq<TaskRow>, id: int): (r: Option<TaskRow>)
    ensures r.Some? ==> r.value in tasks && r.value.id == id
    ensures r.None? <==> forall t :: t in tasks ==> t.id != id
  {
    FindFirst(tasks, TaskIdIs(id))
  }

  /** `Project.findByPk(id)`. */
  function FindProject(projects: seq<ProjectRow>, id: int): (r: Option<ProjectRow>)
    ensures r.Some? ==> r.value in projects && r.value.id == id
    ensures r.None? <==> forall p :: p in projects ==> p.id != id
  {
    FindFirst(projects, ProjectIdIs(id))
  }

  /** `User.findByPk(id)`. */
  function FindUser(users: seq<UserRow>, id: int): (r: Option<UserRow>)
    ensures r.Some? ==> r.value in users && r.value.id == id
    ensures r.None? <==> forall u :: u in users ==> u.id != id
  {
    FindFirst(users, UserIdIs(id))
  }

  /** The rows that replace every row with `row.id` by `row`, keeping all others. */
  function ReplaceTask(tasks: seq<TaskRow>, row: TaskRow): (r: seq<TaskRow>)
    ensures |r| == |tasks|
    ensures forall i :: 0 <= i < |r| ==> r[i] == if tasks[i].id == row.id then row else tasks[i]
  {
    seq(|tasks|, i requires 0 <= i < |tasks| => if tasks[i].id == row.id then row else tasks[i])
  }

  function ReplaceProject(projects: seq<ProjectRow>, row: ProjectRow): (r: seq<ProjectRow>)
    ensures |r| == |projects|
    ensures forall i :: 0 <= i < |r| ==> r[i] == if projects[i].id == row.id then row else projects[i]
  {
    seq(|projects|, i requires 0 <= i < |projects| => if projects[i].id == row.id then row else projects[i])
  }

  function ReplaceUser(users: seq<UserRow>, row: UserRow): (r: seq<UserRow>)
    ensures |r| == |users|
    ensures forall i :: 0 <= i < |r| ==> r[i] == if users[i].id == row.id then row else users[i]
  {
    seq(|users|, i requires 0 <= i < |users| => if users[i].id == row.id then row else users[i])
  }

  /** The tasks whose project is among `projects`: what `ON DELETE CASCADE` on
      `tasks.projectId` leaves after projects are deleted. */
  function ProjectIn(projects: seq<ProjectRow>): TaskRow -> bool {
    (t: TaskRow) => HasProject(projects, t.projectId)
  }

  /** The tasks with an assignee `uid` unassigned: what `ON DELETE SET NULL` on
      `tasks.assigneeId` does when that user is deleted. */
  function ClearAssignee(tasks: seq<TaskRow>, uid: int): (r: seq<TaskRow>)
    ensures |r| == |tasks|
    ensures forall i :: 0 <= i < |r| ==>
      r[i] == if tasks[i].assigneeId == Some(uid) then tasks[i].(assigneeId := None) else tasks[i]
  {
    seq(|tasks|, i requires 0 <= i < |tasks| =>
      if tasks[i].assigneeId == Some(uid) then tasks[i].(assigneeId := None) else tasks[i])
  }

  /** Unassigning a user nobody is assigned to changes nothing. */
  lemma ClearAssigneeNoOp(tasks: seq<TaskRow>, uid: int)
    requires forall t :: t in tasks ==> t.assigneeId != Some(uid)
    ensures ClearAssignee(tasks, uid) == tasks
  {
    var r := ClearAssignee(tasks, uid);
    forall i | 0 <= i < |r| ensures r[i] == tasks[i] {
      assert tasks[i] in tasks;
    }
  }

  /** A `WHERE` that keeps every row of a table that is a subset of another keeps the key. */
  lemma HasUserSubset(small: seq<UserRow>, big: seq<UserRow>, id: int)
    requires HasUser(small, id) && forall u :: u in small ==> u in big
    ensures HasUser(big, id)
  {
    var u :| u in small && u.id == id;
    assert u in big;
  }

  lemma HasProjectSubset(small: seq<ProjectRow>, big: seq<ProjectRow>, id: int)
    requires HasProject(small, id) && forall p :: p in small ==> p in big
    ensures HasProject(big, id)
  {
    var p :| p in small && p.id == id;
    assert p in big;
  }

  // Invariant preservation, one lemma per kind of write.

  lemma InsertTaskKeepsValid(db: Db, t: TaskRow)
    requires DbValid(db) && ValidTask(t) && t.id == db.nextTaskId
    requires TaskRefsOk(db.projects, db.users, t)
    ensures DbValid(db.(tasks := db.tasks + [t], nextTaskId := db.nextTaskId + 1))
  {
    AppendKeepsIncreasing(db.tasks, t, TaskKey);
  }

  lemma InsertProjectKeepsValid(db: Db, p: ProjectRow)
    requires DbValid(db) && ValidProject(p) && p.id == db.nextProjectId
    requires ProjectRefsOk(db.users, p)
    ensures DbValid(db.(projects := db.projects + [p], nextProjectId := db.nextProjectId + 1))
  {
    AppendKeepsIncreasing(db.projects, p, ProjectKey);
    var ps := db.projects + [p];
    forall t | t in db.tasks ensures TaskRefsOk(ps, db.users, t) {
      HasProjectSubset(db.projects, ps, t.projectId);
    }
  }

  lemma InsertUserKeepsValid(db: Db, u: UserRow)
    requires DbValid(db) && ValidUser(u) && u.id == db.nextUserId
    requires forall v :: v in db.users ==> v.username != u.username && v.email != u.email
    ensures DbValid(db.(users := db.users + [u], nextUserId := db.nextUserId + 1))
  {
    var us := db.users + [u];
    AppendKeepsIncreasing(db.users, u, UserKey);
    forall p | p in db.projects ensures ProjectRefsOk(us, p) {
      HasUserSubset(db.users, us, p.ownerId);
    }
    forall t | t in db.tasks ensures TaskRefsOk(db.projects, us, t) {
      if t.assigneeId.Some? {
        HasUserSubset(db.users, us, t.assigneeId.value);
      }
    }
  }

  lemma RemoveTasksKeepsValid(db: Db, keep: TaskRow -> bool)
    requires DbValid(db)
    ensures DbValid(db.(tasks := Filter(db.tasks, keep)))
  {
    FilterKeepsIncreasing(db.tasks, keep, TaskKey);
  }

  /** Deleting projects and, by the cascade, their tasks keeps the invariant. */
  lemma RemoveProjectsKeepsValid(db: Db, keep: ProjectRow -> bool)
    requires DbValid(db)
    ensures
      var ps := Filter(db.projects, keep);
      DbValid(db.(projects := ps, tasks := Filter(db.tasks, ProjectIn(ps))))
  {
    var ps := Filter(db.projects, keep);
    var ts := Filter(db.tasks, ProjectIn(ps));
    FilterKeepsIncreasing(db.projects, keep, ProjectKey);
    FilterKeepsIncreasing(db.tasks, ProjectIn(ps), TaskKey);
    assert forall t :: t in ts ==> t in db.tasks && ProjectIn(ps)(t);
  }

  /** The database after the user `uid` is deleted: the row goes, the projects it owns go
      (`ON DELETE CASCADE` on `projects.ownerId`), their tasks go (`ON DELETE CASCADE` on
      `tasks.projectId`), and its remaining assignments are cleared (`ON DELETE SET NULL`
      on `tasks.assigneeId`). */
  function DeleteUserCascade(db: Db, uid: int): Db {
    var ps := Filter(db.projects, NotOwnedBy(uid));
    db.(users := Filter(db.users, UserIdIsNot(uid)),
        projects := ps,
        tasks := ClearAssignee(Filter(db.tasks, ProjectIn(ps)), uid))
  }

  /** Deleting a user, and by the cascades the projects it owns, their tasks, and its
      assignments, keeps the invariant. */
  lemma RemoveUserKeepsValid(db: Db, uid: int)
    requires DbValid(db)
    ensures DbValid(DeleteUserCascade(db, uid))
  {
    var us := Filter(db.users, UserIdIsNot(uid));
    var ps := Filter(db.projects, NotOwnedBy(uid));
    var kept := Filter(db.tasks, ProjectIn(ps));
    var ts := ClearAssignee(kept, uid);
    FilterKeepsIncreasing(db.users, UserIdIsNot(uid), UserKey);
    FilterKeepsIncreasing(db.projects, NotOwnedBy(uid), ProjectKey);
    FilterKeepsIncreasing(db.tasks, ProjectIn(ps), TaskKey);
    assert UniqueLogins(us) by {
      assert forall u :: u in us ==> u in db.users;
    }
    forall p | p in ps ensures ProjectRefsOk(us, p) {
      var o :| o in db.users && o.id == p.ownerId;
      assert o in us;
    }
    ClearAssigneeKeepsTasks(kept, db.nextTaskId, uid, ps, db.users, us);
  }

  /** Unassigning a deleted user keeps each task valid and leaves its references pointing
      at rows that remain. */
  lemma ClearAssigneeKeepsTasks(kept: seq<TaskRow>, next: int, uid: int,
                                ps: seq<ProjectRow>, users: seq<UserRow>, us: seq<UserRow>)
    requires TasksValid(kept, next)
    requires forall t :: t in kept ==> HasProject(ps, t.projectId)
    requires forall t :: t in kept && t.assigneeId.Some? ==> HasUser(users, t.assigneeId.value)
    requires forall u :: u in users && u.id != uid ==> u in us
    ensures TasksValid(ClearAssignee(kept, uid), next)
    ensures forall t :: t in ClearAssignee(kept, uid) ==> TaskRefsOk(ps, us, t)
  {
    var ts := ClearAssignee(kept, uid);
    forall i | 0 <= i < |ts| ensures ValidTask(ts[i]) && 1 <= ts[i].id < next && TaskRefsOk(ps, us, ts[i]) {
      assert kept[i] in kept;
      var a := kept[i].assigneeId;
      if a.Some? && a.value != uid {
        var w :| w in users && w.id == a.value;
        assert w in us;
      }
    }
    forall i, j | 0 <= i < j < |ts| ensures TaskKey(ts[i]) < TaskKey(ts[j]) {
      assert TaskKey(kept[i]) < TaskKey(kept[j]);
    }
  }

  lemma ReplaceTaskKeepsValid(db: Db, row: TaskRow)
    requires DbValid(db) && ValidTask(row) && FindTask(db.tasks, row.id).Some?
    requires TaskRefsOk(db.projects, db.users, row)
    ensures DbValid(db.(tasks := ReplaceTask(db.tasks, row)))
  {
    ReplaceTaskKeepsTasks(db.tasks, db.nextTaskId, db.projects, db.users, row);
  }

  /** Replacing a row keeps every key where it was, so the keys stay increasing. */
  lemma ReplaceTaskKeepsOrder(tasks: seq<TaskRow>, row: TaskRow)
    requires IncreasingBy(tasks, TaskKey)
    ensures IncreasingBy(ReplaceTask(tasks, row), TaskKey)
  {
    var r := ReplaceTask(tasks, row);
    forall i, j | 0 <= i < j < |r| ensures TaskKey(r[i]) < TaskKey(r[j]) {
      assert r[i].id == tasks[i].id && r[j].id == tasks[j].id;
    }
  }

  lemma ReplaceTaskKeepsTasks(tasks: seq<TaskRow>, next: int, projects: seq<ProjectRow>, users: seq<UserRow>, row: TaskRow)
    requires TasksValid(tasks, next) && ValidTask(row) && FindTask(tasks, row.id).Some?
    requires TaskRefsOk(projects, users, row)
    requires forall t :: t in tasks ==> TaskRefsOk(projects, users, t)
    ensures TasksValid(ReplaceTask(tasks, row), next)
    ensures forall t :: t in ReplaceTask(tasks, row) ==> TaskRefsOk(projects, users, t)
  {
    var r := ReplaceTask(tasks, row);
    var stored := FindTask(tasks, row.id).value;
    assert 1 <= row.id < next by {
      assert stored in tasks;
    }
    forall t | t in r ensures ValidTask(t) && 1 <= t.id < next && TaskRefsOk(projects, users, t) {
      var i :| 0 <= i < |r| && r[i] == t;
      if tasks[i].id != row.id {
        assert t == tasks[i] && tasks[i] in tasks;
      }
    }
    ReplaceTaskKeepsOrder(tasks, row);
  }

  /** Replacing rows keeps the set of keys, so references to them stay valid. */
  lemma ReplaceProjectKeepsKeys(projects: seq<ProjectRow>, row: ProjectRow, id: int)
    requires HasProject(projects, id)
    ensures HasProject(ReplaceProject(projects, row), id)
  {
    var r := ReplaceProject(projects, row);
    var p :| p in projects && p.id == id;
    var i :| 0 <= i < |projects| && projects[i] == p;
    assert r[i].id == id && r[i] in r;
  }

  lemma ReplaceUserKeepsKeys(users: seq<UserRow>, row: UserRow, id: int)
    requires HasUser(users, id)
    ensures HasUser(ReplaceUser(users, row), id)
  {
    var r := ReplaceUser(users, row);
    var u :| u in users && u.id == id;
    var i :| 0 <= i < |users| && users[i] == u;
    assert r[i].id == id && r[i] in r;
  }

  lemma ReplaceProjectKeepsValid(db: Db, row: ProjectRow)
    requires DbValid(db) && ValidProject(row) && FindProject(db.projects, row.id).Some?
    requires ProjectRefsOk(db.users, row)
    ensures DbValid(db.(projects := ReplaceProject(db.projects, row)))
  {
    var r := ReplaceProject(db.projects, row);
    ReplaceProjectKeepsProjects(db.projects, db.nextProjectId, db.users, row);
    forall t | t in db.tasks ensures TaskRefsOk(r, db.users, t) {
      ReplaceProjectKeepsKeys(db.projects, row, t.projectId);
    }
  }

  /** Replacing a row keeps every key where it was, so the keys stay increasing. */
  lemma ReplaceProjectKeepsOrder(projects: seq<ProjectRow>, row: ProjectRow)
    requires IncreasingBy(projects, ProjectKey)
    ensures IncreasingBy(ReplaceProject(projects, row), ProjectKey)
  {
    var r := ReplaceProject(projects, row);
    forall i, j | 0 <= i < j < |r| ensures ProjectKey(r[i]) < ProjectKey(r[j]) {
      assert r[i].id == projects[i].id && r[j].id == projects[j].id;
    }
  }

  lemma ReplaceProjectKeepsProjects(projects: seq<ProjectRow>, next: int, users: seq<UserRow>, row: ProjectRow)
    requires ProjectsValid(projects, next) && ValidProject(row) && FindProject(projects, row.id).Some?
    requires ProjectRefsOk(users, row)
    requires forall p :: p in projects ==> ProjectRefsOk(users, p)
    ensures ProjectsValid(ReplaceProject(projects, row), next)
    ensures forall p :: p in ReplaceProject(projects, row) ==> ProjectRefsOk(users, p)
  {
    var r := ReplaceProject(projects, row);
    var stored := FindProject(projects, row.id).value;
    assert 1 <= row.id < next by {
      assert stored in projects;
    }
    forall p | p in r ensures ValidProject(p) && 1 <= p.id < next && ProjectRefsOk(users, p) {
      var i :| 0 <= i < |r| && r[i] == p;
      if projects[i].id != row.id {
        assert p == projects[i] && projects[i] in projects;
      }
    }
    ReplaceProjectKeepsOrder(projects, row);
  }

  lemma ReplaceUserMembers(users: seq<UserRow>, row: UserRow)
    ensures forall u :: u in ReplaceUser(users, row) ==> u == row || (u in users && u.id != row.id)
  {
    var r := ReplaceUser(users, row);
    forall u | u in r ensures u == row || (u in users && u.id != row.id) {
      var i :| 0 <= i < |r| && r[i] == u;
      assert users[i] in users;
    }
  }

  /** Replacing a user keeps the invariant when no other user holds the new row's username
      or email: the check the unique indexes make on `UPDATE`. */
  lemma ReplaceUserKeepsValid(db: Db, row: UserRow)
    requires DbValid(db) && ValidUser(row) && FindUser(db.users, row.id).Some?
    requires forall v :: v in db.users && v.id != row.id ==> v.username != row.username && v.email != row.email
    ensures DbValid(db.(users := ReplaceUser(db.users, row)))
  {
    var r := ReplaceUser(db.users, row);
    ReplaceUserKeepsUsers(db.users, db.nextUserId, row);
    forall p | p in db.projects ensures ProjectRefsOk(r, p) {
      ReplaceUserKeepsKeys(db.users, row, p.ownerId);
    }
    forall t | t in db.tasks ensures TaskRefsOk(db.projects, r, t) {
      if t.assigneeId.Some? {
        ReplaceUserKeepsKeys(db.users, row, t.assigneeId.value);
      }
    }
  }

  /** Replacing a row keeps every key where it was, so the keys stay increasing. */
  lemma ReplaceUserKeepsOrder(users: seq<UserRow>, row: UserRow)
    requires IncreasingBy(users, UserKey)
    ensures IncreasingBy(ReplaceUser(users, row), UserKey)
  {
    var r := ReplaceUser(users, row);
    forall i, j | 0 <= i < j < |r| ensures UserKey(r[i]) < UserKey(r[j]) {
      assert r[i].id == users[i].id && r[j].id == users[j].id;
    }
  }

  lemma ReplaceUserKeepsUsers(users: seq<UserRow>, next: int, row: UserRow)
    requires UsersValid(users, next) && ValidUser(row) && FindUser(users, row.id).Some?
    requires forall v :: v in users && v.id != row.id ==> v.username != row.username && v.email != row.email
    ensures UsersValid(ReplaceUser(users, row), next)
  {
    var r := ReplaceUser(users, row);
    ReplaceUserMembers(users, row);
    ReplaceUserKeepsOrder(users, row);
    forall u | u in r ensures ValidUser(u) && 1 <= u.id < next {
      if u != row {
        assert u in users;
      }
    }
    ReplaceUserUnique(users, row);
  }

  lemma ReplaceUserUnique(users: seq<UserRow>, row: UserRow)
    requires UniqueLogins(users)
    requires forall v :: v in users && v.id != row.id ==> v.username != row.username && v.email != row.email
    ensures UniqueLogins(ReplaceUser(users, row))
  {
    var r := ReplaceUser(users, row);
    ReplaceUserMembers(users, row);
    forall u, v | u in r && v in r && u != v ensures u.username != v.username && u.email != v.email {
      if u != row && v != row {
        assert u in users && v in users;
      }
    }
  }

  // The joined shapes the handlers return.

  /** The `attributes: ['id', 'name', 'username']` projection of a user. */
  datatype UserRef = UserRef(id: int, name: string, username: string)

  /** The `attributes: ['id', 'name']` projection of a project. */
  datatype ProjectRef = ProjectRef(id: int, name: string)

  /** A user without the password: `id, username, name, email, avatar`. */
  datatype PublicUser = PublicUser(id: int, username: string, name: string, email: string, avatar: Option<string>)

  /** A task with its `project` and `assignee` included. */
  datatype TaskView = TaskView(task: TaskRow, project: Option<ProjectRef>, assignee: Option<UserRef>)

  function RefOfUser(u: UserRow): UserRef { UserRef(u.id, u.name, u.username) }
  function RefOfProject(p: ProjectRow): ProjectRef { ProjectRef(p.id, p.name) }
  function PublicOf(u: UserRow): PublicUser { PublicUser(u.id, u.username, u.name, u.email, u.avatar) }

  /** The included user a nullable foreign key points at. */
  function UserRefOf(users: seq<UserRow>, id: Option<int>): (r: Option<UserRef>)
    ensures r.Some? <==> id.Some? && exists u :: u in users && u.id == id.value
    ensures r.Some? ==> r.value.id == id.value
  {
    match id
    case None => None
    case Some(k) =>
      match FindUser(users, k)
      case None => None
      case Some(u) => Some(RefOfUser(u))
  }

  /** A task with its project and assignee looked up in `db`. */
  function ViewTask(db: Db, t: TaskRow): (v: TaskView)
    ensures v.task == t
    ensures v.project.Some? <==> exists p :: p in db.projects && p.id == t.projectId
    ensures v.project.Some? ==> v.project.value.id == t.projectId
    ensures v.assignee.Some? <==> t.assigneeId.Some? && exists u :: u in db.users && u.id == t.assigneeId.value
    ensures v.assignee.Some? ==> v.assignee.value.id == t.assigneeId.value
  {
    var project := match FindProject(db.projects, t.projectId)
      case None => None
      case Some(p) => Some(RefOfProject(p));
    TaskView(t, project, UserRefOf(db.users, t.assigneeId))
  }
}
