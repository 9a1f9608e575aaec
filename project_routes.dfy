/** The `/api/projects` handlers: list (optionally by owner), read one, create, update and
    delete. None of them broadcasts. */
module ProjectRoutes {
  import opened Wrappers
  import opened Strings
  import opened Sorting
  import opened Domain
  import opened Models
  import opened Store
  import opened Http

  /** The JSON body of a create or an update. */
  datatype ProjectBody = ProjectBody(name: Field<string>, description: Field<string>, ownerId: Field<int>)

  /** The `attributes: ['id', 'status']` projection of a task. */
  datatype TaskBrief = TaskBrief(id: int, status: TaskStatus)

  /** A task with its assignee included. */
  datatype TaskWithAssignee = TaskWithAssignee(task: TaskRow, assignee: Option<UserRef>)

  /** A project of the listing: its owner and the brief form of its tasks. */
  datatype ProjectSummary = ProjectSummary(project: ProjectRow, owner: Option<UserRef>, tasks: seq<TaskBrief>)

  /** A project read by key: its owner and its tasks with their assignees. */
  datatype ProjectDetail = ProjectDetail(project: ProjectRow, owner: Option<UserRef>, tasks: seq<TaskWithAssignee>)

  /** A created or updated project with its owner. */
  datatype ProjectWithOwner = ProjectWithOwner(project: ProjectRow, owner: Option<UserRef>)

  /** The listing selects by owner only when the parameter is truthy. */
  predicate OwnedPerQuery(ownerId: Option<string>, p: ProjectRow) {
    Given(ownerId) ==> DecimalId(ownerId.value) == Some(p.ownerId)
  }

  function OwnerFilter(ownerId: Option<string>): ProjectRow -> bool {
    (p: ProjectRow) => OwnedPerQuery(ownerId, p)
  }

  function NewerProjectOrSame(a: ProjectRow, b: ProjectRow): bool {
    a.createdAt >= b.createdAt
  }

  lemma NewerProjectOrSameIsTotal()
    ensures TotalPreorder(NewerProjectOrSame)
  {
  }

  /** The projects of the listing, newest first. */
  function ListedProjects(projects: seq<ProjectRow>, ownerId: Option<string>): seq<ProjectRow> {
    SortBy(Filter(projects, OwnerFilter(ownerId)), NewerProjectOrSame)
  }

  /** The listing holds exactly the projects of the given owner (all projects when no truthy
      owner is given), newest first. */
  lemma ListedProjectsSpec(projects: seq<ProjectRow>, ownerId: Option<string>)
    ensures multiset(ListedProjects(projects, ownerId)) == multiset(Filter(projects, OwnerFilter(ownerId)))
    ensures forall p :: p in ListedProjects(projects, ownerId) <==> p in projects && OwnedPerQuery(ownerId, p)
    ensures !Given(ownerId) ==> multiset(ListedProjects(projects, ownerId)) == multiset(projects)
    ensures SortedBy(ListedProjects(projects, ownerId), NewerProjectOrSame)
  {
    var r := ListedProjects(projects, ownerId);
    var f := Filter(projects, OwnerFilter(ownerId));
    forall p ensures p in r <==> p in projects && OwnedPerQuery(ownerId, p) {
      assert p in r <==> p in multiset(r);
      assert p in f <==> p in multiset(f);
    }
    if !Given(ownerId) {
      FilterAllKept(projects, OwnerFilter(ownerId));
    }
    NewerProjectOrSameIsTotal();
    SortBySorted(f, NewerProjectOrSame);
  }

  function TasksOf(tasks: seq<TaskRow>, pid: int): (r: seq<TaskRow>)
    ensures forall t :: t in r <==> t in tasks && t.projectId == pid
  {
    Filter(tasks, InProject(pid))
  }

  /** A project of the listing carries its owner and the id and status of each of its tasks,
      in table order, every one of them included. */
  function Summary(db: Db, p: ProjectRow): (r: ProjectSummary)
    ensures r.project == p && r.owner == UserRefOf(db.users, Some(p.ownerId))
    ensures |r.tasks| == |TasksOf(db.tasks, p.id)|
    ensures forall i :: 0 <= i < |r.tasks| ==>
      r.tasks[i] == TaskBrief(TasksOf(db.tasks, p.id)[i].id, TasksOf(db.tasks, p.id)[i].status)
    ensures forall t :: t in db.tasks && t.projectId == p.id ==> TaskBrief(t.id, t.status) in r.tasks
  {
    var ts := TasksOf(db.tasks, p.id);
    ProjectSummary(p, UserRefOf(db.users, Some(p.ownerId)),
                   seq(|ts|, i requires 0 <= i < |ts| => TaskBrief(ts[i].id, ts[i].status)))
  }

  function Summaries(db: Db, ps: seq<ProjectRow>): (r: seq<ProjectSummary>)
    ensures |r| == |ps| && forall i :: 0 <= i < |r| ==> r[i] == Summary(db, ps[i])
  {
    seq(|ps|, i requires 0 <= i < |ps| => Summary(db, ps[i]))
  }

  /** A project read by key carries its owner and each of its tasks, in table order, with
      that task's assignee; every one of its tasks is included. */
  function Detail(db: Db, p: ProjectRow): (r: ProjectDetail)
    ensures r.project == p && r.owner == UserRefOf(db.users, Some(p.ownerId))
    ensures |r.tasks| == |TasksOf(db.tasks, p.id)|
    ensures forall i :: 0 <= i < |r.tasks| ==> r.tasks[i].task == TasksOf(db.tasks, p.id)[i]
    ensures forall x :: x in r.tasks ==>
      x.task in db.tasks && x.task.projectId == p.id && x.assignee == UserRefOf(db.users, x.task.assigneeId)
    ensures forall t :: t in db.tasks && t.projectId == p.id ==>
      TaskWithAssignee(t, UserRefOf(db.users, t.assigneeId)) in r.tasks
  {
    var ts := TasksOf(db.tasks, p.id);
    ProjectDetail(p, UserRefOf(db.users, Some(p.ownerId)),
                  seq(|ts|, i requires 0 <= i < |ts| => TaskWithAssignee(ts[i], UserRefOf(db.users, ts[i].assigneeId))))
  }

  function WithOwner(db: Db, p: ProjectRow): ProjectWithOwner {
    ProjectWithOwner(p, UserRefOf(db.users, Some(p.ownerId)))
  }

  /** `findByPk` with the path parameter. */
  function LookupProject(projects: seq<ProjectRow>, id: string): (r: Option<ProjectRow>)
    ensures r.Some? ==> r.value in projects && DecimalId(id) == Some(r.value.id)
    ensures r.None? <==> forall p :: p in projects ==> DecimalId(id) != Some(p.id)
  {
    match DecimalId(id)
    case None => None
    case Some(k) => FindProject(projects, k)
  }

  /** In a valid database every stored project's owner is found. */
  lemma OwnerIncluded(db: Db, p: ProjectRow)
    requires DbValid(db) && p in db.projects
    ensures UserRefOf(db.users, Some(p.ownerId)).Some?
  {
    assert ProjectRefsOk(db.users, p);
  }

  /** `GET /api/projects`. */
  method GetProjects(s: EntityStore, ownerId: Option<string>) returns (resp: Response<seq<ProjectSummary>>)
    requires s.Valid()
    ensures resp == Ok(200, Summaries(s.Db(), ListedProjects(s.projects, ownerId)), "Projects retrieved successfully")
  {
    var keep := (p: ProjectRow) => true;
    if Given(ownerId) {
      var k := DecimalId(ownerId.value);
      keep := (p: ProjectRow) => k == Some(p.ownerId);
    }
    forall p | p in s.projects ensures keep(p) == OwnerFilter(ownerId)(p) {
    }
    FilterCongruent(s.projects, keep, OwnerFilter(ownerId));
    var rows := SortBy(Filter(s.projects, keep), NewerProjectOrSame);
    resp := Ok(200, Summaries(s.Db(), rows), "Projects retrieved successfully");
  }

  /** `GET /api/projects/:id`. */
  method GetProject(s: EntityStore, id: string) returns (resp: Response<ProjectDetail>)
    requires s.Valid()
    ensures LookupProject(s.projects, id).None? ==> resp == Fail(404, "Project not found")
    ensures LookupProject(s.projects, id).Some? ==>
      && resp == Ok(200, Detail(s.Db(), LookupProject(s.projects, id).value), "Project retrieved successfully")
      && resp.data.value.owner.Some?
  {
    var p := LookupProject(s.projects, id);
    if p.None? {
      return Fail(404, "Project not found");
    }
    OwnerIncluded(s.Db(), p.value);
    resp := Ok(200, Detail(s.Db(), p.value), "Project retrieved successfully");
  }

  function CreateAttrs(b: ProjectBody): ProjectAttrs {
    ProjectAttrs(b.name, b.description, b.ownerId)
  }

  /** `POST /api/projects`. */
  method PostProject(s: EntityStore, b: ProjectBody, now: int) returns (resp: Response<ProjectWithOwner>)
    requires s.Valid()
    modifies s
    ensures s.Valid() && s.events == old(s.events)
    ensures !TruthyText(b.name) || !TruthyNumber(b.ownerId) ==> resp == Fail(400, "Name and ownerId are required")
    ensures
      var n := NewProject(CreateAttrs(b), old(s.nextProjectId), now);
      && (resp.success <==>
            TruthyText(b.name) && TruthyNumber(b.ownerId) && n.Some? && ProjectRefsOk(old(s.users), n.value))
      && (resp.success ==>
            && s.Db() == old(s.Db()).(projects := old(s.projects) + [n.value], nextProjectId := old(s.nextProjectId) + 1)
            && resp == Ok(201, WithOwner(s.Db(), n.value), "Project created successfully")
            && resp.data.value.owner.Some? && resp.data.value.owner.value.id == b.ownerId.value)
    ensures !resp.success ==> s.Db() == old(s.Db())
    ensures TruthyText(b.name) && TruthyNumber(b.ownerId) && !resp.success ==>
      resp == Fail(500, "Failed to create project")
  {
    if !TruthyText(b.name) || !TruthyNumber(b.ownerId) {
      return Fail(400, "Name and ownerId are required");
    }
    var row := s.InsertProject(CreateAttrs(b), now);
    if row.None? {
      return Fail(500, "Failed to create project");
    }
    assert ProjectRefsOk(s.users, row.value);
    resp := Ok(201, WithOwner(s.Db(), row.value), "Project created successfully");
  }

  /** `PUT /api/projects/:id`: only the name and the description are passed on. */
  method PutProject(s: EntityStore, id: string, b: ProjectBody, now: int) returns (resp: Response<ProjectWithOwner>)
    requires s.Valid()
    modifies s
    ensures s.Valid() && s.events == old(s.events)
    ensures LookupProject(old(s.projects), id).None? ==> resp == Fail(404, "Project not found")
    ensures
      var p := LookupProject(old(s.projects), id);
      var u := if p.Some? then UpdateProject(p.value, ProjectChanges(b.name, b.description), now) else None;
      && (resp.success <==> u.Some?)
      && (resp.success ==>
            && u.value.ownerId == p.value.ownerId
            && s.Db() == old(s.Db()).(projects := ReplaceProject(old(s.projects), u.value))
            && resp == Ok(200, WithOwner(s.Db(), u.value), "Project updated successfully"))
      && (p.Some? && !resp.success ==> resp == Fail(500, "Failed to update project"))
    ensures !resp.success ==> s.Db() == old(s.Db())
  {
    var p := LookupProject(s.projects, id);
    if p.None? {
      return Fail(404, "Project not found");
    }
    var row := s.UpdateProjectRow(p.value.id, ProjectChanges(b.name, b.description), now);
    if row.None? {
      return Fail(500, "Failed to update project");
    }
    resp := Ok(200, WithOwner(s.Db(), row.value), "Project updated successfully");
  }

  /** Once the tasks of project `k` are gone, deleting the project cascades to nothing. */
  lemma CascadeAfterTasks(db: Db, k: int)
    requires DbValid(db)
    ensures
      var tasks := Filter(db.tasks, NotInProject(k));
      Filter(tasks, ProjectIn(Filter(db.projects, ProjectIdIsNot(k)))) == tasks
  {
    var tasks := Filter(db.tasks, NotInProject(k));
    var ps := Filter(db.projects, ProjectIdIsNot(k));
    forall t | t in tasks ensures ProjectIn(ps)(t) {
      assert TaskRefsOk(db.projects, db.users, t);
      var p :| p in db.projects && p.id == t.projectId;
      assert p in ps;
    }
    FilterAllKept(tasks, ProjectIn(ps));
  }

  /** `DELETE /api/projects/:id`: the project's tasks first, then the project. */
  method DeleteProject(s: EntityStore, id: string) returns (resp: Response<ProjectWithOwner>)
    requires s.Valid()
    modifies s
    ensures s.Valid() && s.events == old(s.events)
    ensures LookupProject(old(s.projects), id).None? ==>
      resp == Fail(404, "Project not found") && s.Db() == old(s.Db())
    ensures LookupProject(old(s.projects), id).Some? ==>
      var k := LookupProject(old(s.projects), id).value.id;
      && resp == Ack("Project deleted successfully")
      && s.Db() == old(s.Db()).(projects := Filter(old(s.projects), ProjectIdIsNot(k)),
                                tasks := Filter(old(s.tasks), NotInProject(k)))
  {
    var p := LookupProject(s.projects, id);
    if p.None? {
      return Fail(404, "Project not found");
    }
    var k := p.value.id;
    CascadeAfterTasks(s.Db(), k);
    s.DestroyTasks(NotInProject(k));
    s.DestroyProjects(ProjectIdIsNot(k));
    resp := Ack("Project deleted successfully");
  }
}
