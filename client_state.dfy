/** The board screen of the client: the task and project lists it keeps in step with the
    server's answers and broadcasts, the selected project, the sidebar and the two forms.
    The server's answers are handed to each handler as the outcome of its request. */
module AppState {
  import opened Wrappers
  import opened Strings
  import opened Sorting
  import opened Domain
  import opened Models
  import opened Store
  import opened Http
  import opened ApiClient
  import opened Recommender
  import TaskRoutes

  function TaskKeyOf(v: TaskView): int { v.task.id }

  /** `list.map(x => x.id === id ? y : x)`. */
  function ReplaceWhereKey<T>(s: seq<T>, id: int, y: T, key: T -> int): (r: seq<T>)
    ensures |r| == |s|
    ensures forall i :: 0 <= i < |s| && key(s[i]) != id ==> r[i] == s[i]
    ensures forall i :: 0 <= i < |s| && key(s[i]) == id ==> r[i] == y
  {
    seq(|s|, i requires 0 <= i < |s| => if key(s[i]) == id then y else s[i])
  }

  /** No element with the key: the list comes back as it was. */
  lemma ReplaceWithoutMatch<T>(s: seq<T>, id: int, y: T, key: T -> int)
    requires forall i :: 0 <= i < |s| ==> key(s[i]) != id
    ensures ReplaceWhereKey(s, id, y, key) == s
  {
  }

  /** Replacing twice is replacing once. */
  lemma ReplaceIdempotent<T>(s: seq<T>, id: int, y: T, key: T -> int)
    ensures ReplaceWhereKey(ReplaceWhereKey(s, id, y, key), id, y, key) == ReplaceWhereKey(s, id, y, key)
  {
  }

  /** With a replacement that carries the key, the keys stay where they were, and the
      replacement is present exactly when some element had the key. */
  lemma ReplaceKeepsKeys<T(!new)>(s: seq<T>, y: T, key: T -> int)
    ensures forall i :: 0 <= i < |s| ==> key(ReplaceWhereKey(s, key(y), y, key)[i]) == key(s[i])
    ensures y in ReplaceWhereKey(s, key(y), y, key) <==> y in s || exists x :: x in s && key(x) == key(y)
  {
    var r := ReplaceWhereKey(s, key(y), y, key);
    if exists x :: x in s && key(x) == key(y) {
      var x :| x in s && key(x) == key(y);
      var i :| 0 <= i < |s| && s[i] == x;
      assert r[i] == y;
    }
    if y in r {
      var i :| 0 <= i < |r| && r[i] == y;
      assert s[i] in s;
    }
  }

  function KeyIsNot<T>(id: int, key: T -> int): T -> bool {
    (x: T) => key(x) != id
  }

  /** `list.filter(x => x.id !== id)`: the elements with another key, in their order. */
  function WithoutKey<T(!new)>(s: seq<T>, id: int, key: T -> int): (r: seq<T>)
    ensures forall x :: x in r <==> x in s && key(x) != id
  {
    Filter(s, KeyIsNot(id, key))
  }

  /** Removing a key no element has changes nothing; removing one that is present shortens
      the list. */
  lemma WithoutKeySize<T(!new)>(s: seq<T>, id: int, key: T -> int)
    ensures (forall x :: x in s ==> key(x) != id) ==> WithoutKey(s, id, key) == s
    ensures (exists x :: x in s && key(x) == id) ==> |WithoutKey(s, id, key)| < |s|
  {
    if forall x :: x in s ==> key(x) != id {
      FilterAllKept(s, KeyIsNot(id, key));
    }
    if exists x :: x in s && key(x) == id {
      var x :| x in s && key(x) == id;
      assert x !in WithoutKey(s, id, key);
      var r := WithoutKey(s, id, key);
      FilterSubMultiset(s, KeyIsNot(id, key));
      MultisetMissingSmaller(multiset(r), multiset(s), x);
    }
  }

  /** A sub-multiset that misses an element of the larger one is smaller. */
  lemma MultisetMissingSmaller<T>(a: multiset<T>, b: multiset<T>, x: T)
    requires a <= b && x in b && x !in a
    ensures |a| < |b|
  {
    var rest := b - multiset{x};
    assert a <= rest;
    assert rest == a + (rest - a);
    assert b == rest + multiset{x};
  }

  /** `selectedProject ? tasks.filter(t => t.projectId === selectedProject) : tasks`: with
      no selection, or the falsy 0, every task is shown. */
  function VisibleTasks(tasks: seq<TaskView>, selected: Option<int>): (r: seq<TaskView>)
    ensures selected.None? || selected.value == 0 ==> r == tasks
    ensures selected.Some? && selected.value != 0 ==>
      forall v :: v in r <==> v in tasks && v.task.projectId == selected.value
  {
    if selected.Some? && selected.value != 0 then
      Filter(tasks, (v: TaskView) => v.task.projectId == selected.value)
    else tasks
  }

  /** The visible tasks keep the order of the list. */
  lemma VisibleTasksInOrder(tasks: seq<TaskView>, selected: Option<int>)
    requires IncreasingBy(tasks, TaskKeyOf)
    ensures IncreasingBy(VisibleTasks(tasks, selected), TaskKeyOf)
  {
    if selected.Some? && selected.value != 0 {
      FilterKeepsIncreasing(tasks, (v: TaskView) => v.task.projectId == selected.value, TaskKeyOf);
    }
  }

  /** The JavaScript values a broadcast payload is made of here. */
  datatype JsValue = JsNumber(n: int) | JsString(text: string) | JsObject(fields: map<string, JsValue>)

  /** `n === v` with a number on the left: true only for that same number. */
  predicate StrictEqualsNumber(n: int, v: JsValue) {
    v.JsNumber? && v.n == n
  }

  /** The `taskDeleted` payload as it reaches the client: the object `{ id }` with the path
      text of the deleted task. */
  function PayloadValue(p: DeletedPayload): JsValue {
    JsObject(map["id" := JsString(p.id)])
  }

  /** The `taskDeleted` handler as written: it treats the payload as the numeric id and
      keeps the tasks whose id is not strictly equal to it. */
  function RemainingAfterDeletedAsWritten(tasks: seq<TaskView>, payload: JsValue): (r: seq<TaskView>)
    ensures forall v :: v in r <==> v in tasks && !StrictEqualsNumber(v.task.id, payload)
  {
    Filter(tasks, (v: TaskView) => !StrictEqualsNumber(v.task.id, payload))
  }

  /** As written, no broadcast deletion ever removes a task: a number is never strictly
      equal to an object. */
  lemma {:induction false} DeletedEventRemovesNothing(tasks: seq<TaskView>, p: DeletedPayload)
    ensures RemainingAfterDeletedAsWritten(tasks, PayloadValue(p)) == tasks
  {
    FilterAllKept(tasks, (v: TaskView) => !StrictEqualsNumber(v.task.id, PayloadValue(p)));
  }

  /** The deletion of task 7 leaves task 7 on the board. */
  lemma DeletedTaskStaysOnBoard(v: TaskView)
    requires v.task.id == 7
    ensures RemainingAfterDeletedAsWritten([v], PayloadValue(DeletedPayload("7"))) == [v]
    ensures RemainingAfterDeleted([v], DeletedPayload("7")) == []
  {
    DeletedEventRemovesNothing([v], DeletedPayload("7"));
    DecimalIdOfNatToString(7);
    assert NatToString(7) == "7";
  }

  /** The handler reading the id out of the payload: the tasks whose id is not the one the
      payload's text denotes; a text that denotes no id removes nothing. */
  function RemainingAfterDeleted(tasks: seq<TaskView>, p: DeletedPayload): (r: seq<TaskView>)
    ensures forall v :: v in r <==> v in tasks && DecimalId(p.id) != Some(v.task.id)
    ensures DecimalId(p.id).None? ==> r == tasks
  {
    match DecimalId(p.id)
    case None => tasks
    case Some(id) => WithoutKey(tasks, id, TaskKeyOf)
  }

  /** The broadcast the server sends after deleting the task a path text names removes
      exactly that task's entries from the board. */
  lemma DeletedEventRemovesTask(tasks: seq<TaskRow>, views: seq<TaskView>, id: string)
    requires TaskRoutes.LookupTask(tasks, id).Some?
    ensures
      var gone := TaskRoutes.LookupTask(tasks, id).value.id;
      forall v :: v in RemainingAfterDeleted(views, DeletedPayload(id)) <==> v in views && v.task.id != gone
  {
  }

  /** `selectedProject || 1`. */
  function ProjectOrDefault(selected: Option<int>): (pid: int)
    ensures pid != 0
    ensures selected.Some? && selected.value != 0 ==> pid == selected.value
    ensures selected.None? || selected.value == 0 ==> pid == 1
  {
    if selected.Some? && selected.value != 0 then selected.value else 1
  }

  /** The task `handleApplyRecommendation` submits for a recommendation. */
  function RecommendationPayload(rec: Recommendation, selected: Option<int>): TaskPayload {
    TaskPayload(Some(rec.title), Some(rec.description), Some(rec.priority), Some(Todo),
                Some(ProjectOrDefault(selected)), None, None)
  }

  /** A recommendation with a title of 1 to 200 characters, applied, passes the create
      handler's checks and the task model's validators; only a missing project can still
      refuse it. The created task is `todo` with the recommendation's title and priority; an
      empty priority text is falsy and the server puts `normal` in its place. */
  lemma AppliedRecommendationIsCreatable(rec: Recommendation, selected: Option<int>, id: int, now: int)
    requires 1 <= |rec.title| <= 200
    ensures
      var b := TaskBodyOf(RecommendationPayload(rec, selected));
      && TruthyText(b.title) && TruthyNumber(b.projectId)
      && var r := NewTask(TaskRoutes.CreateAttrs(b), id, now);
      && r.Some?
      && r.value.title == rec.title
      && r.value.priority == (if PriorityName(rec.priority) == "" then Normal else rec.priority)
      && r.value.status == Todo && r.value.projectId == ProjectOrDefault(selected)
  {
    var b := TaskBodyOf(RecommendationPayload(rec, selected));
    TaskRoutes.CreatedTaskDefaults(b, id, now);
    var r := NewTask(TaskRoutes.CreateAttrs(b), id, now);
    if PriorityName(rec.priority) != "" {
      assert ParsePriority(PriorityName(rec.priority)) == rec.priority == r.value.priority;
    }
  }

  /** Every recommendation the service makes has such a title. */
  lemma RecommendationTitlesFit(rule: Rule)
    ensures 1 <= |Details(rule).title| <= 200
  {
    TitleFits(rule);
  }

  /** A request the board sends, in the order sent. */
  datatype Request =
    | CreateTaskCall(task: TaskPayload)
    | UpdateTaskCall(taskId: int, changes: TaskPayload)
    | DeleteTaskCall(deletedId: int)
    | CreateProjectCall(project: ProjectPayload)
    | UpdateProjectCall(projectId: int, projectChanges: ProjectPayload)

  /** The `AppContent` component's state. Only the handlers set it; the forms are opened for
      creation, since no handler of the screen puts a task or project into edit mode. */
  class Board {
    var tasks: seq<TaskView>
    var projects: seq<ProjectRow>
    var selectedProject: Option<int>
    var isSidebarOpen: bool
    var isTaskFormOpen: bool
    var isProjectFormOpen: bool
    var editingTask: Option<TaskView>
    var editingProject: Option<ProjectRow>
    /** The requests sent to the server, oldest first. */
    var requests: seq<Request>

    /** The sidebar and form state, which the list handlers leave alone. */
    function Panels(): (bool, bool, bool, Option<TaskView>, Option<ProjectRow>)
      reads this
    {
      (isSidebarOpen, isTaskFormOpen, isProjectFormOpen, editingTask, editingProject)
    }

    constructor ()
      ensures tasks == [] && projects == [] && selectedProject.None? && requests == []
      ensures Panels() == (false, false, false, None, None)
    {
      tasks := [];
      projects := [];
      selectedProject := None;
      isSidebarOpen := false;
      isTaskFormOpen := false;
      isProjectFormOpen := false;
      editingTask := None;
      editingProject := None;
      requests := [];
    }

    /** What the current selection shows. */
    function Visible(): seq<TaskView>
      reads this
    {
      VisibleTasks(tasks, selectedProject)
    }

    /** `handleTaskUpdate`: send the changes; the answer's task takes the place of every
        entry with the id, and only when the answer succeeded with a task. */
    method HandleTaskUpdate(taskId: int, updates: TaskPayload, outcome: ApiOutcome<TaskView>)
      modifies this
      ensures requests == old(requests) + [UpdateTaskCall(taskId, updates)]
      ensures Delivered(outcome) ==> tasks == ReplaceWhereKey(old(tasks), taskId, outcome.body.data.value, TaskKeyOf)
      ensures !Delivered(outcome) ==> tasks == old(tasks)
      ensures projects == old(projects) && selectedProject == old(selectedProject) && Panels() == old(Panels())
    {
      requests := requests + [UpdateTaskCall(taskId, updates)];
      if Delivered(outcome) {
        tasks := ReplaceWhereKey(tasks, taskId, outcome.body.data.value, TaskKeyOf);
      }
    }

    /** `handleTaskDelete`: send the deletion; once it is answered without an error the
        entries with the id go. */
    method HandleTaskDelete(taskId: int, outcome: ApiOutcome<TaskView>)
      modifies this
      ensures requests == old(requests) + [DeleteTaskCall(taskId)]
      ensures outcome.Returned? ==> tasks == WithoutKey(old(tasks), taskId, TaskKeyOf)
      ensures outcome.Thrown? ==> tasks == old(tasks)
      ensures projects == old(projects) && selectedProject == old(selectedProject) && Panels() == old(Panels())
    {
      requests := requests + [DeleteTaskCall(taskId)];
      if outcome.Returned? {
        tasks := WithoutKey(tasks, taskId, TaskKeyOf);
      }
    }

    /** `handleNewTask`: open the task form for a new task. */
    method HandleNewTask()
      modifies this
      ensures editingTask.None? && isTaskFormOpen
      ensures tasks == old(tasks) && projects == old(projects) && requests == old(requests)
      ensures selectedProject == old(selectedProject) && isSidebarOpen == old(isSidebarOpen)
      ensures isProjectFormOpen == old(isProjectFormOpen) && editingProject == old(editingProject)
    {
      editingTask := None;
      isTaskFormOpen := true;
    }

    /** `handleTaskSubmit`: update the task being edited, or create one; a created task that
        comes back is appended at the end. */
    method HandleTaskSubmit(data: TaskPayload, outcome: ApiOutcome<TaskView>)
      modifies this
      ensures old(editingTask).Some? ==>
        var id := old(editingTask).value.task.id;
        && requests == old(requests) + [UpdateTaskCall(id, data)]
        && tasks == if Delivered(outcome) then ReplaceWhereKey(old(tasks), id, outcome.body.data.value, TaskKeyOf) else old(tasks)
      ensures old(editingTask).None? ==>
        && requests == old(requests) + [CreateTaskCall(data)]
        && tasks == if Delivered(outcome) then old(tasks) + [outcome.body.data.value] else old(tasks)
      ensures projects == old(projects) && selectedProject == old(selectedProject) && Panels() == old(Panels())
    {
      if editingTask.Some? {
        var id := editingTask.value.task.id;
        requests := requests + [UpdateTaskCall(id, data)];
        if Delivered(outcome) {
          tasks := ReplaceWhereKey(tasks, id, outcome.body.data.value, TaskKeyOf);
        }
      } else {
        requests := requests + [CreateTaskCall(data)];
        if Delivered(outcome) {
          tasks := tasks + [outcome.body.data.value];
        }
      }
    }

    /** `handleNewProject`: open the project form for a new project. */
    method HandleNewProject()
      modifies this
      ensures editingProject.None? && isProjectFormOpen
      ensures tasks == old(tasks) && projects == old(projects) && requests == old(requests)
      ensures selectedProject == old(selectedProject) && isSidebarOpen == old(isSidebarOpen)
      ensures isTaskFormOpen == old(isTaskFormOpen) && editingTask == old(editingTask)
    {
      editingProject := None;
      isProjectFormOpen := true;
    }

    /** `handleProjectSubmit`: update the project being edited, or create one. */
    method HandleProjectSubmit(data: ProjectPayload, outcome: ApiOutcome<ProjectRow>)
      modifies this
      ensures old(editingProject).Some? ==>
        var id := old(editingProject).value.id;
        && requests == old(requests) + [UpdateProjectCall(id, data)]
        && projects == if Delivered(outcome) then ReplaceWhereKey(old(projects), id, outcome.body.data.value, ProjectKey) else old(projects)
      ensures old(editingProject).None? ==>
        && requests == old(requests) + [CreateProjectCall(data)]
        && projects == if Delivered(outcome) then old(projects) + [outcome.body.data.value] else old(projects)
      ensures tasks == old(tasks) && selectedProject == old(selectedProject) && Panels() == old(Panels())
    {
      if editingProject.Some? {
        var id := editingProject.value.id;
        requests := requests + [UpdateProjectCall(id, data)];
        if Delivered(outcome) {
          projects := ReplaceWhereKey(projects, id, outcome.body.data.value, ProjectKey);
        }
      } else {
        requests := requests + [CreateProjectCall(data)];
        if Delivered(outcome) {
          projects := projects + [outcome.body.data.value];
        }
      }
    }

    /** `handleProjectSelect`: select the project and close the sidebar. */
    method HandleProjectSelect(projectId: int)
      modifies this
      ensures selectedProject == Some(projectId) && !isSidebarOpen
      ensures tasks == old(tasks) && projects == old(projects) && requests == old(requests)
      ensures isTaskFormOpen == old(isTaskFormOpen) && isProjectFormOpen == old(isProjectFormOpen)
      ensures editingTask == old(editingTask) && editingProject == old(editingProject)
    {
      selectedProject := Some(projectId);
      isSidebarOpen := false;
    }

    /** `handleTaskCreated`: the broadcast task goes at the end, even when its id is there. */
    method HandleTaskCreated(task: TaskView)
      modifies this
      ensures tasks == old(tasks) + [task]
      ensures projects == old(projects) && selectedProject == old(selectedProject)
      ensures requests == old(requests) && Panels() == old(Panels())
    {
      tasks := tasks + [task];
    }

    /** `handleTaskUpdated`: the broadcast task replaces every entry with its id. */
    method HandleTaskUpdated(task: TaskView)
      modifies this
      ensures tasks == ReplaceWhereKey(old(tasks), task.task.id, task, TaskKeyOf)
      ensures projects == old(projects) && selectedProject == old(selectedProject)
      ensures requests == old(requests) && Panels() == old(Panels())
    {
      tasks := ReplaceWhereKey(tasks, task.task.id, task, TaskKeyOf);
    }

    /** `handleTaskDeleted`, reading the id out of the broadcast payload. */
    method HandleTaskDeleted(payload: DeletedPayload)
      modifies this
      ensures tasks == RemainingAfterDeleted(old(tasks), payload)
      ensures projects == old(projects) && selectedProject == old(selectedProject)
      ensures requests == old(requests) && Panels() == old(Panels())
    {
      tasks := RemainingAfterDeleted(tasks, payload);
    }

    /** `handleProjectCreated`: the project goes at the end. */
    method HandleProjectCreated(project: ProjectRow)
      modifies this
      ensures projects == old(projects) + [project]
      ensures tasks == old(tasks) && selectedProject == old(selectedProject)
      ensures requests == old(requests) && Panels() == old(Panels())
    {
      projects := projects + [project];
    }

    /** `handleProjectUpdated`: the project replaces every entry with its id. */
    method HandleProjectUpdated(project: ProjectRow)
      modifies this
      ensures projects == ReplaceWhereKey(old(projects), project.id, project, ProjectKey)
      ensures tasks == old(tasks) && selectedProject == old(selectedProject)
      ensures requests == old(requests) && Panels() == old(Panels())
    {
      projects := ReplaceWhereKey(projects, project.id, project, ProjectKey);
    }

    /** `handleProjectDeleted`: the project goes, and so does the selection when it was that
        project; another selection stays. */
    method HandleProjectDeleted(projectId: int)
      modifies this
      ensures projects == WithoutKey(old(projects), projectId, ProjectKey)
      ensures old(selectedProject) == Some(projectId) ==> selectedProject.None?
      ensures old(selectedProject) != Some(projectId) ==> selectedProject == old(selectedProject)
      ensures tasks == old(tasks) && requests == old(requests) && Panels() == old(Panels())
    {
      projects := WithoutKey(projects, projectId, ProjectKey);
      if selectedProject == Some(projectId) {
        selectedProject := None;
      }
    }

    /** `handleApplyRecommendation`: submit the recommendation as a `todo` task of the
        selected project, or of project 1 without a selection. */
    method HandleApplyRecommendation(rec: Recommendation, outcome: ApiOutcome<TaskView>)
      modifies this
      ensures
        var data := RecommendationPayload(rec, old(selectedProject));
        && data.projectId == Some(ProjectOrDefault(old(selectedProject))) && data.status == Some(Todo)
        && data.title == Some(rec.title) && data.priority == Some(rec.priority)
        && (old(editingTask).None? ==>
              && requests == old(requests) + [CreateTaskCall(data)]
              && tasks == if Delivered(outcome) then old(tasks) + [outcome.body.data.value] else old(tasks))
        && (old(editingTask).Some? ==> requests == old(requests) + [UpdateTaskCall(old(editingTask).value.task.id, data)])
      ensures projects == old(projects) && selectedProject == old(selectedProject) && Panels() == old(Panels())
    {
      HandleTaskSubmit(RecommendationPayload(rec, selectedProject), outcome);
    }
  }
}
