/** The `/api/ai` handlers: the path id is read with JavaScript's `parseInt`, the service is
    consulted on the current rows, and a `null` answer becomes 404. */
module AiRoutes {
  import opened Wrappers
  import opened Strings
  import opened Models
  import opened Http
  import opened Recommender

  /** `parseInt(query.userId) || 1`: the parsed value, or 1 when the parameter is missing,
      has no leading number, or reads as 0. */
  function RequestedUserId(userId: Option<string>): (id: int)
    ensures id != 0
    ensures userId.None? ==> id == 1
    ensures userId.Some? ==> id == (match ParseInt(userId.value) case None => 1 case Some(v) => if v == 0 then 1 else v)
  {
    match userId
    case None => 1
    case Some(text) =>
      match ParseInt(text)
      case None => 1
      case Some(v) => if v == 0 then 1 else v
  }

  /** `GET /api/ai/recommendations/:projectId`: 400 when the id does not parse; otherwise
      success with the list, empty when the project or the user is missing. */
  function GetRecommendations(db: Db, projectId: string, userId: Option<string>): (resp: Response<seq<Recommendation>>)
    ensures ParseInt(projectId).None? <==> resp == Refuse(400, "Invalid project ID")
    ensures ParseInt(projectId).Some? ==>
      resp == Data(GenerateTaskRecommendations(db, ParseInt(projectId).value, RequestedUserId(userId)))
    ensures resp.success ==> resp.data.Some? && |resp.data.value| <= 5
  {
    match ParseInt(projectId)
    case None => Refuse(400, "Invalid project ID")
    case Some(pid) => Data(GenerateTaskRecommendations(db, pid, RequestedUserId(userId)))
  }

  /** `GET /api/ai/insights/:projectId`: 400 when the id does not parse, 404 "Project not
      found" when the project is missing, otherwise the insight. */
  function GetInsights(db: Db, projectId: string): (resp: Response<ProjectInsight>)
    ensures ParseInt(projectId).None? ==> resp == Refuse(400, "Invalid project ID")
    ensures ParseInt(projectId).Some? && FindProject(db.projects, ParseInt(projectId).value).None? ==>
      resp == Refuse(404, "Project not found")
    ensures resp.success <==> ParseInt(projectId).Some? && FindProject(db.projects, ParseInt(projectId).value).Some?
    ensures resp.success ==>
      resp.status == 200 && resp.data.Some? && resp.data.value.projectId == ParseInt(projectId).value
      && resp.data.value.completedTasks <= resp.data.value.totalTasks && resp.data.value.recommendedNextSteps != []
    ensures resp.success ==> resp.data == Some(GenerateProjectInsights(db, ParseInt(projectId).value).value)
  {
    match ParseInt(projectId)
    case None => Refuse(400, "Invalid project ID")
    case Some(pid) =>
      match GenerateProjectInsights(db, pid)
      case None => Refuse(404, "Project not found")
      case Some(insight) => Data(insight)
  }

  /** `GET /api/ai/assignment-suggestions/:taskId` as written: 400 when the id does not
      parse, 404 "Task not found" when the task is missing, otherwise the suggestions exactly
      as the service returns them, whole user rows with their password hashes, an empty list
      included. */
  function GetAssignmentSuggestions(db: Db, taskId: string): (resp: Response<seq<UserRow>>)
    ensures ParseInt(taskId).None? ==> resp == Refuse(400, "Invalid task ID")
    ensures ParseInt(taskId).Some? && FindTask(db.tasks, ParseInt(taskId).value).None? ==>
      resp == Refuse(404, "Task not found")
    ensures resp.success <==> ParseInt(taskId).Some? && FindTask(db.tasks, ParseInt(taskId).value).Some?
    ensures resp.success ==>
      && resp.status == 200 && resp.data.Some? && |resp.data.value| <= 3
      && resp.data == SuggestTaskAssignmentAsWritten(db, ParseInt(taskId).value)
      && forall u :: u in resp.data.value ==> u in db.users
  {
    match ParseInt(taskId)
    case None => Refuse(400, "Invalid task ID")
    case Some(tid) =>
      match SuggestTaskAssignmentAsWritten(db, tid)
      case None => Refuse(404, "Task not found")
      case Some(users) =>
        SuggestionsAreLightest(db, tid);
        Data(users)
  }

  /** The same endpoint over the corrected service: the same answers, with only the public
      fields of each suggested user. */
  function GetPublicAssignmentSuggestions(db: Db, taskId: string): (resp: Response<seq<PublicUser>>)
    ensures resp.success == GetAssignmentSuggestions(db, taskId).success
    ensures resp.status == GetAssignmentSuggestions(db, taskId).status
    ensures !resp.success ==> resp.message == GetAssignmentSuggestions(db, taskId).message
    ensures resp.success ==>
      var rows := GetAssignmentSuggestions(db, taskId).data.value;
      && resp.data.Some? && |resp.data.value| == |rows|
      && forall i :: 0 <= i < |rows| ==> resp.data.value[i] == PublicOf(rows[i])
  {
    match ParseInt(taskId)
    case None => Refuse(400, "Invalid task ID")
    case Some(tid) =>
      match SuggestTaskAssignment(db, tid)
      case None => Refuse(404, "Task not found")
      case Some(users) => Data(users)
  }
}
