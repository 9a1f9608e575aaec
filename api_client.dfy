/** The client's request layer: the headers every request carries, how a server answer
    becomes a value or a thrown error, and the endpoint paths, query strings included. The
    fetch itself and the JSON decoding are not modelled; the server's answer is handed in. */
module ApiClient {
  import opened Wrappers
  import opened Strings
  import opened Http
  import opened Domain
  import AuthMiddleware
  import AiRoutes
  import TaskRoutes
  import ProjectRoutes

  /** The JSON body of `taskApi.create` and `taskApi.update`; `None` is a key left out. */
  datatype TaskPayload = TaskPayload(
    title: Option<string>, description: Option<string>, priority: Option<Priority>,
    status: Option<TaskStatus>, projectId: Option<int>, assigneeId: Option<int>, dueDate: Option<string>)

  const NoTaskFields := TaskPayload(None, None, None, None, None, None, None)

  /** A payload key as the server reads it: `JSON.stringify` drops a key left `undefined`. */
  function Sent<T>(o: Option<T>): Field<T> {
    match o
    case Some(v) => Present(v)
    case None => Absent
  }

  /** The body the server parses from a task payload; the enumerations travel by spelling. */
  function TaskBodyOf(p: TaskPayload): TaskRoutes.TaskBody {
    TaskRoutes.TaskBody(
      Sent(p.title), Sent(p.description),
      Sent(if p.priority.Some? then Some(PriorityName(p.priority.value)) else None),
      Sent(if p.status.Some? then Some(StatusName(p.status.value)) else None),
      Sent(p.projectId), Sent(p.assigneeId), Sent(p.dueDate))
  }

  /** The JSON body of `projectApi.create` and `projectApi.update`. */
  datatype ProjectPayload = ProjectPayload(name: Option<string>, description: Option<string>, ownerId: Option<int>)

  /** The body the server parses from a project payload. */
  function ProjectBodyOf(p: ProjectPayload): ProjectRoutes.ProjectBody {
    ProjectRoutes.ProjectBody(Sent(p.name), Sent(p.description), Sent(p.ownerId))
  }

  /** What `apiRequest` gives its caller: the decoded body, or an error it throws. */
  datatype ApiOutcome<D> = Returned(body: Response<D>) | Thrown(message: string)

  /** `response.ok`: a status in the 2xx range. */
  predicate IsOk(status: int) {
    200 <= status < 300
  }

  const RequestFailed := "API request failed"

  /** `response.success && response.data`: the answer came back and carries a payload. */
  predicate Delivered<D>(o: ApiOutcome<D>) {
    o.Returned? && o.body.success && o.body.data.Some?
  }

  /** `apiRequest` after the fetch: a 2xx answer is returned as it is; any other is thrown,
      with the body's `error` text when it is truthy and a fixed text otherwise. */
  function ApiRequest<D>(answer: Response<D>): (o: ApiOutcome<D>)
    ensures o.Returned? <==> IsOk(answer.status)
    ensures o.Returned? ==> o.body == answer
    ensures o.Thrown? && answer.error.Some? && answer.error.value != "" ==> o.message == answer.error.value
    ensures o.Thrown? && !(answer.error.Some? && answer.error.value != "") ==> o.message == RequestFailed
  {
    if IsOk(answer.status) then Returned(answer)
    else if answer.error.Some? && answer.error.value != "" then Thrown(answer.error.value)
    else Thrown(RequestFailed)
  }

  /** A failure of the resource routes, which put their text under `error`, reaches the
      caller as that text. */
  lemma ResourceFailureKeepsText<D>(status: int, error: string)
    requires !IsOk(status) && error != ""
    ensures ApiRequest(Fail<D>(status, error)) == Thrown(error)
  {
  }

  /** A failure of the authentication routes, which put their text under `message`, reaches
      the caller as the fixed text: the server's explanation is lost. */
  lemma AuthFailureLosesText<D>(status: int, message: string)
    requires !IsOk(status)
    ensures ApiRequest(Refuse<D>(status, message)) == Thrown(RequestFailed)
  {
  }

  /** The headers of a request: the JSON content type and, when a non-empty token is stored,
      `Authorization: Bearer <token>`. Headers passed in the options replace this whole set,
      since the later `...options` spread overwrites the `headers` key. */
  function RequestHeaders(token: Option<string>, optionHeaders: Option<map<string, string>>): (h: map<string, string>)
    ensures optionHeaders.Some? ==> h == optionHeaders.value
    ensures optionHeaders.None? ==>
      && "Content-Type" in h && h["Content-Type"] == "application/json"
      && ("Authorization" in h <==> Given(token))
      && (Given(token) ==> h["Authorization"] == "Bearer " + token.value)
      && h.Keys <= {"Content-Type", "Authorization"}
  {
    var base := map["Content-Type" := "application/json"];
    var headers := if Given(token) then base["Authorization" := "Bearer " + token.value] else base;
    match optionHeaders
    case Some(given) => given
    case None => headers
  }

  /** A stored token without spaces comes out of the server's header parsing unchanged. */
  lemma SentTokenIsExtracted(token: string)
    requires token != "" && ' ' !in token
    ensures
      var h := RequestHeaders(Some(token), None);
      AuthMiddleware.ExtractToken(Some(h["Authorization"])) == Some(token)
  {
    AuthMiddleware.TokenAfterAnyScheme("Bearer", token, "");
  }

  /** A query parameter with its value already turned into text; `None` is `undefined`. */
  datatype QueryParam = QueryParam(key: string, value: Option<string>)

  /** The `key=value` pieces of the defined parameters, in the order given. */
  function Pieces(params: seq<QueryParam>): (r: seq<string>)
    ensures |r| <= |params|
    ensures r == [] <==> forall i :: 0 <= i < |params| ==> params[i].value.None?
  {
    if params == [] then []
    else
      var rest := Pieces(params[1..]);
      match params[0].value
      case None => rest
      case Some(v) => [params[0].key + "=" + v] + rest
  }

  /** The pieces joined with `&`. */
  function JoinWithAmpersand(parts: seq<string>): (s: string)
    ensures parts == [] ==> s == ""
  {
    if parts == [] then ""
    else if |parts| == 1 then parts[0]
    else parts[0] + "&" + JoinWithAmpersand(parts[1..])
  }

  /** The query string `URLSearchParams` produces, percent-encoding aside. */
  function QueryOf(params: seq<QueryParam>): string {
    JoinWithAmpersand(Pieces(params))
  }

  /** The query string is empty exactly when no parameter is defined: each piece holds `=`. */
  lemma QueryEmptyIff(params: seq<QueryParam>)
    ensures QueryOf(params) == "" <==> forall i :: 0 <= i < |params| ==> params[i].value.None?
  {
    var pieces := Pieces(params);
    if pieces != [] {
      PiecesHoldEquals(params);
      assert pieces[0] != "";
      JoinStartsWithFirst(pieces);
    }
  }

  lemma {:induction false} PiecesHoldEquals(params: seq<QueryParam>)
    ensures forall i :: 0 <= i < |Pieces(params)| ==> '=' in Pieces(params)[i]
  {
    if params != [] {
      PiecesHoldEquals(params[1..]);
      if params[0].value.Some? {
        var p := params[0];
        assert (p.key + "=" + p.value.value)[|p.key|] == '=';
      }
    }
  }

  lemma JoinStartsWithFirst(parts: seq<string>)
    requires parts != []
    ensures |JoinWithAmpersand(parts)| >= |parts[0]|
  {
  }

  /** The search parameters filled one entry at a time, as `taskApi.getAll` does with
      `Object.entries(params).forEach(...)`, then written out. */
  method BuildQuery(params: seq<QueryParam>) returns (query: string)
    ensures query == QueryOf(params)
  {
    var pieces: seq<string> := [];
    var i := 0;
    while i < |params|
      invariant 0 <= i <= |params|
      invariant pieces == Pieces(params[..i])
    {
      PiecesSnoc(params[..i], params[i]);
      assert params[..i + 1] == params[..i] + [params[i]];
      if params[i].value.Some? {
        pieces := pieces + [params[i].key + "=" + params[i].value.value];
      }
      i := i + 1;
    }
    assert params[..i] == params;
    query := JoinWithAmpersand(pieces);
  }

  /** One more parameter at the end adds its piece, if defined, at the end. */
  lemma {:induction false} PiecesSnoc(params: seq<QueryParam>, p: QueryParam)
    ensures Pieces(params + [p]) == Pieces(params) + (if p.value.Some? then [p.key + "=" + p.value.value] else [])
  {
    if params != [] {
      assert (params + [p])[1..] == params[1..] + [p];
      PiecesSnoc(params[1..], p);
    } else {
      assert [p][1..] == [];
    }
  }

  /** `taskApi.getAll`: `/tasks`, with `?` and the query when any parameter is defined. */
  method TaskListEndpoint(params: seq<QueryParam>) returns (endpoint: string)
    ensures (forall i :: 0 <= i < |params| ==> params[i].value.None?) ==> endpoint == "/tasks"
    ensures (exists i :: 0 <= i < |params| && params[i].value.Some?) ==> endpoint == "/tasks?" + QueryOf(params)
  {
    var query := BuildQuery(params);
    QueryEmptyIff(params);
    endpoint := if query != "" then "/tasks?" + query else "/tasks";
  }

  /** `projectApi.getAll`: the owner filter is sent only when it is truthy, so 0 is dropped. */
  function ProjectListEndpoint(ownerId: Option<int>): (endpoint: string)
    ensures ownerId.None? || ownerId.value == 0 ==> endpoint == "/projects"
    ensures ownerId.Some? && ownerId.value != 0 ==> endpoint == "/projects?ownerId=" + IntToString(ownerId.value)
  {
    if ownerId.Some? && ownerId.value != 0 then "/projects?" + QueryOf([QueryParam("ownerId", Some(IntToString(ownerId.value)))])
    else "/projects"
  }

  /** The by-id endpoints: the collection path, `/` and the decimal id. */
  function ByIdEndpoint(collection: string, id: int): (endpoint: string)
    ensures endpoint == collection + "/" + IntToString(id)
  {
    collection + "/" + IntToString(id)
  }

  /** For a non-negative id the server reads the path segment back as that id. */
  lemma ByIdSegmentReadBack(id: nat)
    ensures DecimalId(IntToString(id)) == Some(id)
  {
    DecimalIdOfNatToString(id);
  }

  /** `aiApi.getTaskRecommendations`: the project id in the path and `?userId=` only when the
      user id is truthy. */
  function RecommendationsEndpoint(projectId: int, userId: Option<int>): (endpoint: string)
    ensures userId.Some? && userId.value != 0 ==>
      endpoint == "/ai/recommendations/" + IntToString(projectId) + "?userId=" + IntToString(userId.value)
    ensures userId.None? || userId.value == 0 ==> endpoint == "/ai/recommendations/" + IntToString(projectId)
  {
    var path := ByIdEndpoint("/ai/recommendations", projectId);
    if userId.Some? && userId.value != 0 then path + "?userId=" + IntToString(userId.value) else path
  }

  /** The recommendations server reads back the ids the client sent, and a user id the client
      leaves out becomes user 1 on the server. */
  lemma RecommendationsRequestReadBack(projectId: int, userId: Option<int>)
    ensures ParseInt(IntToString(projectId)) == Some(projectId)
    ensures AiRoutes.RequestedUserId(if userId.Some? && userId.value != 0 then Some(IntToString(userId.value)) else None)
      == if userId.Some? && userId.value != 0 then userId.value else 1
  {
    ParseIntOfIntToString(projectId);
    if userId.Some? && userId.value != 0 {
      ParseIntOfIntToString(userId.value);
    }
  }

  function InsightsEndpoint(projectId: int): (endpoint: string)
    ensures endpoint == "/ai/insights/" + IntToString(projectId)
  {
    ByIdEndpoint("/ai/insights", projectId)
  }

  function AssignmentSuggestionsEndpoint(taskId: int): (endpoint: string)
    ensures endpoint == "/ai/assignment-suggestions/" + IntToString(taskId)
  {
    ByIdEndpoint("/ai/assignment-suggestions", taskId)
  }
}
