/** The `/api/users` handlers: list, read one, create, update and delete. None of them
    broadcasts, and none returns a password. */
module UserRoutes {
  import opened Wrappers
  import opened Strings
  import opened Sorting
  import opened Domain
  import opened Models
  import opened Store
  import opened Http

  /** The JSON body of a create or an update; the password is never read from it. */
  datatype UserBody = UserBody(username: Field<string>, email: Field<string>, name: Field<string>, avatar: Field<string>)

  /** The `attributes: ['id', 'title', 'status', 'priority']` projection of a task. */
  datatype AssignedTask = AssignedTask(id: int, title: string, status: TaskStatus, priority: Priority)

  /** A user read by key, with the projects it owns and the tasks assigned to it. */
  datatype UserDetail = UserDetail(user: PublicUser, projects: seq<ProjectRef>, assignedTasks: seq<AssignedTask>)

  /** `order: [['name', 'ASC']]`. */
  function NameOrder(a: UserRow, b: UserRow): bool {
    TextLe(a.name, b.name)
  }

  lemma NameOrderIsTotal()
    ensures TotalPreorder(NameOrder)
  {
    forall a: UserRow, b: UserRow ensures NameOrder(a, b) || NameOrder(b, a) {
      TextLeTotal(a.name, b.name);
    }
    forall a: UserRow, b: UserRow, c: UserRow | NameOrder(a, b) && NameOrder(b, c) ensures NameOrder(a, c) {
      TextLeTransitive(a.name, b.name, c.name);
    }
  }

  function PublicList(users: seq<UserRow>): (r: seq<PublicUser>)
    ensures |r| == |users| && forall i :: 0 <= i < |r| ==> r[i] == PublicOf(users[i])
  {
    seq(|users|, i requires 0 <= i < |users| => PublicOf(users[i]))
  }

  /** The users of the listing, by name. */
  function ListedUsers(users: seq<UserRow>): seq<UserRow> {
    SortBy(users, NameOrder)
  }

  /** The listing holds every user once per row, ordered by name. */
  lemma ListedUsersSpec(users: seq<UserRow>)
    ensures multiset(ListedUsers(users)) == multiset(users)
    ensures SortedBy(ListedUsers(users), NameOrder)
  {
    NameOrderIsTotal();
    SortBySorted(users, NameOrder);
  }

  /** The projects a user owns, in table order. */
  function OwnedProjects(projects: seq<ProjectRow>, uid: int): (r: seq<ProjectRow>)
    ensures forall p :: p in r <==> p in projects && p.ownerId == uid
  {
    Filter(projects, (p: ProjectRow) => p.ownerId == uid)
  }

  /** The tasks assigned to a user, in table order. */
  function AssignedTasks(tasks: seq<TaskRow>, uid: int): (r: seq<TaskRow>)
    ensures forall t :: t in r <==> t in tasks && t.assigneeId == Some(uid)
  {
    Filter(tasks, (t: TaskRow) => t.assigneeId == Some(uid))
  }

  /** The projection of an assigned task. */
  function AssignedTaskOf(t: TaskRow): AssignedTask {
    AssignedTask(t.id, t.title, t.status, t.priority)
  }

  /** A user read by key: its public fields, a reference to each project it owns and the
      projection of each task assigned to it, in table order, every one of them included. */
  function Detail(db: Db, u: UserRow): (r: UserDetail)
    ensures r.user == PublicOf(u)
    ensures |r.projects| == |OwnedProjects(db.projects, u.id)|
    ensures |r.assignedTasks| == |AssignedTasks(db.tasks, u.id)|
    ensures forall i :: 0 <= i < |r.projects| ==> r.projects[i] == RefOfProject(OwnedProjects(db.projects, u.id)[i])
    ensures forall i :: 0 <= i < |r.assignedTasks| ==>
      r.assignedTasks[i] == AssignedTaskOf(AssignedTasks(db.tasks, u.id)[i])
    ensures forall p :: p in db.projects && p.ownerId == u.id ==> RefOfProject(p) in r.projects
    ensures forall t :: t in db.tasks && t.assigneeId == Some(u.id) ==> AssignedTaskOf(t) in r.assignedTasks
  {
    var ps := OwnedProjects(db.projects, u.id);
    var ts := AssignedTasks(db.tasks, u.id);
    UserDetail(PublicOf(u),
               seq(|ps|, i requires 0 <= i < |ps| => RefOfProject(ps[i])),
               seq(|ts|, i requires 0 <= i < |ts| => AssignedTaskOf(ts[i])))
  }

  /** `findByPk` with the path parameter. */
  function LookupUser(users: seq<UserRow>, id: string): (r: Option<UserRow>)
    ensures r.Some? ==> r.value in users && DecimalId(id) == Some(r.value.id)
    ensures r.None? <==> forall u :: u in users ==> DecimalId(id) != Some(u.id)
  {
    match DecimalId(id)
    case None => None
    case Some(k) => FindUser(users, k)
  }

  /** `GET /api/users`. */
  method GetUsers(s: EntityStore) returns (resp: Response<seq<PublicUser>>)
    requires s.Valid()
    ensures resp == Ok(200, PublicList(ListedUsers(s.users)), "Users retrieved successfully")
  {
    resp := Ok(200, PublicList(SortBy(s.users, NameOrder)), "Users retrieved successfully");
  }

  /** `GET /api/users/:id`. */
  method GetUser(s: EntityStore, id: string) returns (resp: Response<UserDetail>)
    requires s.Valid()
    ensures LookupUser(s.users, id).None? ==> resp == Fail(404, "User not found")
    ensures LookupUser(s.users, id).Some? ==>
      resp == Ok(200, Detail(s.Db(), LookupUser(s.users, id).value), "User retrieved successfully")
  {
    var u := LookupUser(s.users, id);
    if u.None? {
      return Fail(404, "User not found");
    }
    resp := Ok(200, Detail(s.Db(), u.value), "User retrieved successfully");
  }

  /** The `[Op.or]: [{ username }, { email }]` lookup. */
  predicate LoginTaken(users: seq<UserRow>, username: string, email: string) {
    exists v :: v in users && (v.username == username || v.email == email)
  }

  /** The attribute object of the create handler: no password is ever among them. */
  function CreateAttrs(b: UserBody): UserAttrs {
    UserAttrs(b.username, b.email, b.name, Absent, b.avatar)
  }

  /** The create handler's attributes never pass the user model, whose password is required. */
  lemma CreateAlwaysInvalid(b: UserBody, id: int, now: int)
    ensures NewUser(CreateAttrs(b), id, now).None?
  {
  }

  /** `POST /api/users`: the required-field check, the duplicate check, then the create,
      which the missing password makes fail. */
  method PostUser(s: EntityStore, b: UserBody, now: int) returns (resp: Response<PublicUser>)
    requires s.Valid()
    modifies s
    ensures s.Valid() && s.events == old(s.events) && s.Db() == old(s.Db())
    ensures !resp.success
    ensures !TruthyText(b.username) || !TruthyText(b.email) || !TruthyText(b.name) ==>
      resp == Fail(400, "Username, email, and name are required")
    ensures TruthyText(b.username) && TruthyText(b.email) && TruthyText(b.name) ==>
      if LoginTaken(old(s.users), b.username.value, b.email.value)
      then resp == Fail(400, "User with this username or email already exists")
      else resp == Fail(500, "Failed to create user")
  {
    if !TruthyText(b.username) || !TruthyText(b.email) || !TruthyText(b.name) {
      return Fail(400, "Username, email, and name are required");
    }
    var existing := FindFirst(s.users, (v: UserRow) => v.username == b.username.value || v.email == b.email.value);
    if existing.Some? {
      return Fail(400, "User with this username or email already exists");
    }
    var row := s.InsertUser(CreateAttrs(b), now);
    assert row.None? by {
      CreateAlwaysInvalid(b, old(s.nextUserId), now);
    }
    resp := Fail(500, "Failed to create user");
  }

  /** The conflict lookup of the update handler: another user that holds every one of the
      truthy username and email values at once. */
  predicate ConflictPerBody(users: seq<UserRow>, k: int, b: UserBody) {
    && (TruthyText(b.username) || TruthyText(b.email))
    && exists v :: v in users && v.id != k
         && (TruthyText(b.username) ==> v.username == b.username.value)
         && (TruthyText(b.email) ==> v.email == b.email.value)
  }

  function UpdateChanges(b: UserBody): UserChanges {
    UserChanges(b.username, b.email, b.name, Absent, b.avatar)
  }

  /** The `findOne` of the update handler: the `where` holds `username` and `email` when
      they are truthy, and `id` different from the user's. */
  function FindConflict(users: seq<UserRow>, k: int, b: UserBody): (r: Option<UserRow>)
    requires TruthyText(b.username) || TruthyText(b.email)
    ensures r.Some? <==> ConflictPerBody(users, k, b)
  {
    var wantName := if TruthyText(b.username) then Some(b.username.value) else None;
    var wantEmail := if TruthyText(b.email) then Some(b.email.value) else None;
    FindFirst(users, (v: UserRow) =>
      && v.id != k
      && (wantName.Some? ==> v.username == wantName.value)
      && (wantEmail.Some? ==> v.email == wantEmail.value))
  }

  /** `PUT /api/users/:id`. */
  method PutUser(s: EntityStore, id: string, b: UserBody, now: int) returns (resp: Response<PublicUser>)
    requires s.Valid()
    modifies s
    ensures s.Valid() && s.events == old(s.events)
    ensures LookupUser(old(s.users), id).None? ==> resp == Fail(404, "User not found")
    ensures
      var u := LookupUser(old(s.users), id);
      && (u.Some? && ConflictPerBody(old(s.users), u.value.id, b) ==>
            resp == Fail(400, "Username or email is already taken"))
      && (resp.success <==>
            && u.Some? && !ConflictPerBody(old(s.users), u.value.id, b)
            && var n := UpdateUser(u.value, UpdateChanges(b), now);
               n.Some? && LoginsFreeExcept(old(s.users), u.value.id, n.value.username, n.value.email))
      && (resp.success ==>
            var n := UpdateUser(u.value, UpdateChanges(b), now).value;
            && s.Db() == old(s.Db()).(users := ReplaceUser(old(s.users), n))
            && resp == Ok(200, PublicOf(n), "User updated successfully")
            && n.password == u.value.password)
      && (u.Some? && !ConflictPerBody(old(s.users), u.value.id, b) && !resp.success ==>
            resp == Fail(500, "Failed to update user"))
    ensures !resp.success ==> s.Db() == old(s.Db())
  {
    var u := LookupUser(s.users, id);
    if u.None? {
      return Fail(404, "User not found");
    }
    var k := u.value.id;
    if TruthyText(b.username) || TruthyText(b.email) {
      var existing := FindConflict(s.users, k, b);
      if existing.Some? {
        return Fail(400, "Username or email is already taken");
      }
    }
    var row := s.UpdateUserRow(k, UpdateChanges(b), now);
    if row.None? {
      return Fail(500, "Failed to update user");
    }
    resp := Ok(200, PublicOf(row.value), "User updated successfully");
  }

  /** The conflict check is conjunctive: a body that changes both logins, where one other user
      holds the new username and yet another the new email, passes it and is then refused
      by the unique indexes. */
  lemma ConjunctiveCheckMisses(s: seq<UserRow>, k: int, b: UserBody, v: UserRow, w: UserRow)
    requires TruthyText(b.username) && TruthyText(b.email)
    requires v in s && w in s && v.id != k && w.id != k
    requires v.username == b.username.value && v.email != b.email.value
    requires w.email == b.email.value && w.username != b.username.value
    requires forall x :: x in s && x.id != k ==> x == v || x == w
    ensures !ConflictPerBody(s, k, b)
    ensures !LoginsFreeExcept(s, k, b.username.value, b.email.value)
  {
  }

  /** Once the handler has deleted the user's assigned tasks and owned projects, deleting the
      user row cascades to nothing more. */
  lemma UserCascadeAfterHandlers(db: Db, k: int)
    requires DbValid(db)
    requires forall t :: t in db.tasks ==> t.assigneeId != Some(k)
    requires forall p :: p in db.projects ==> p.ownerId != k
    ensures DeleteUserCascade(db, k) == db.(users := Filter(db.users, UserIdIsNot(k)))
  {
    FilterAllKept(db.projects, NotOwnedBy(k));
    forall t | t in db.tasks ensures ProjectIn(db.projects)(t) {
      assert TaskRefsOk(db.projects, db.users, t);
    }
    FilterAllKept(db.tasks, ProjectIn(db.projects));
    ClearAssigneeNoOp(db.tasks, k);
  }

  /** `DELETE /api/users/:id`: the tasks assigned to the user, then the projects it owns
      (with their tasks), then the user. */
  method DeleteUser(s: EntityStore, id: string) returns (resp: Response<PublicUser>)
    requires s.Valid()
    modifies s
    ensures s.Valid() && s.events == old(s.events)
    ensures LookupUser(old(s.users), id).None? ==>
      resp == Fail(404, "User not found") && s.Db() == old(s.Db())
    ensures LookupUser(old(s.users), id).Some? ==>
      var k := LookupUser(old(s.users), id).value.id;
      var projects := Filter(old(s.projects), NotOwnedBy(k));
      && resp == Ack("User deleted successfully")
      && s.Db() == old(s.Db()).(
           users := Filter(old(s.users), UserIdIsNot(k)),
           projects := projects,
           tasks := Filter(Filter(old(s.tasks), NotAssignedTo(k)), ProjectIn(projects)))
  {
    var u := LookupUser(s.users, id);
    if u.None? {
      return Fail(404, "User not found");
    }
    var k := u.value.id;
    s.DestroyTasks(NotAssignedTo(k));
    ghost var unassigned := s.tasks;
    s.DestroyProjects(NotOwnedBy(k));
    forall t | t in s.tasks ensures t.assigneeId != Some(k) {
      assert t in unassigned;
    }
    UserCascadeAfterHandlers(s.Db(), k);
    s.DestroyUser(k);
    resp := Ack("User deleted successfully");
  }
}
