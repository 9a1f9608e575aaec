# TableCraft board, modelled in Dafny

TableCraft is a task and project board with two halves:

- **The server** is an Express REST API over a SQLite database managed by Sequelize. It has three tables: users, projects and tasks. Route handlers list, read, create, update and delete rows, and the task handlers broadcast each change over socket.io. An authentication service registers users, logs them in and verifies their tokens. A rule-based "AI" service recommends tasks, summarises a project and suggests assignees.
- **The client** is a React app: a board screen that keeps its task and project lists in step with the server, a four-column task table with drag and drop, two forms, a small API client, and the sign-in context.

The project models that core and proves properties of it. Modules follow the source files:

- `Models` (`models.dfy`): the rows, the validators of the three Sequelize models, and the database invariant `DbValid`. The invariant covers valid rows, increasing unique keys, unique logins and foreign keys that point at stored rows. One lemma per kind of write shows that the write keeps it.
- `Store` (`store.dfy`): the class `EntityStore`. It holds the tables as `seq` fields, the next auto-increment key of each table, and an append-only log of broadcasts. Its methods are the ORM calls the handlers make. Each one keeps `DbValid`, and each states the new database outright.
- `TaskRoutes`, `ProjectRoutes`, `UserRoutes`, `AuthRoutes`, `AiRoutes`: one method or function per route handler. Each states the response for every branch, and how the database and the broadcast log change.
- `AuthService` and `AuthMiddleware`: registration, login, token verification, the profile service, and the bearer-token split with the two middlewares.
- `Recommender`: `analyzeTaskPatterns`, the five recommendation rules, the project insight and the assignment suggestion.
- `AppState` (`client_state.dfy`): the class `Board`, holding the state of the board screen and its handlers. The module also holds the list updaters the handlers use.
- `TaskTable`, `TaskForm`, `ProjectForm` and `Forms`: the client components.
- `ApiClient`: `apiRequest`, with the headers it sends and the error it throws, plus the endpoint and query builders.
- `AuthContext`: the class `AuthSession`, the sign-in state machine of the client.
- Helper modules:
  - `Wrappers`: `Option`, plus `Field`, which is a JSON key that is absent, `null` or present.
  - `Strings`: trimming, lower-casing, substring search, splitting on spaces, UTF-16 length, and JavaScript's `parseInt`.
  - `Sorting`: filtering, a stable insertion sort by a total preorder, counting and taking.
  - `Domain`: the priority and status enumerations.
  - `Email`: the e-mail pattern.
  - `Http`: the response shapes.

Hashing and token signing are library calls. The model passes them in as a `Crypto` value holding four functions: `hash`, `compare`, `sign` and `verify`. The predicate `Sound` states what the service relies on:

- a password matches its own hash;
- a bcrypt hash has 60 characters;
- a freshly signed token verifies to the id it was signed for.

Lemmas that need these facts require `Sound`. An expired or forged token is one that `verify` refuses. The clock is a `now` parameter in milliseconds. On the client, each server answer is a parameter of the handler that awaits it: an `ApiOutcome` that either returned a body or threw a message.

Behaviour of the source that the lemmas pin down (none of it is changed in the model):

- The `priority` and `status` columns are SQLite text: the enumeration is not checked, so any text is stored, and a task whose status is none of the four shows in no column of the board (`Models.NewTask`, `TaskTable.ColumnCountsSum`).
- Dropping a task on another column sends only `{ status }`. The update handler nulls a due date that is not sent, so a drag and drop also clears the task's due date (`TaskTable.DropMovesTask`).
- When the server refuses a login, the client shows the fixed text "Login failed. Please try again.". It never shows the server's reason, because the auth routes put their text under `message` and `apiRequest` throws on every non-2xx answer (`AuthContext.RefusedLoginShowsFixedText`, `ApiClient.AuthFailureLosesText`).
- `POST /api/users` never passes a password, which the user model requires. Every request that gets past the duplicate check therefore ends in the 500 branch (`UserRoutes.CreateAlwaysInvalid`, `UserRoutes.PostUser`).
- The conflict check of `PUT /api/users/:id` asks for one other user holding both of the given logins. Two different users, each holding one of them, slip past it. The unique indexes then refuse the write, and the handler answers 500 (`UserRoutes.ConjunctiveCheckMisses`).
- A profile update applies no length rule to a new password. Only the 60-character hash is checked against the column's 6..255 bound, so a one-character password is accepted (`AuthService.ShortPasswordAccepted`).
- The delete handlers remove dependent rows themselves, before the row they delete. The database's own `ON DELETE` actions then have nothing left to do (`ProjectRoutes.CascadeAfterTasks`, `UserRoutes.UserCascadeAfterHandlers`).

## Model

| member | source | states |
|---|---|---|
| `Domain.ParsePriority` | backend/src/models/Task.ts:37-41 | every text reads as a priority that spells it back, and as the only such priority: one of the three spellings, or other text kept as sent |
| `Domain.ParseStatus` | backend/src/models/Task.ts:42-46 | every text reads as a status that spells it back, and as the only such status: one of the four spellings, or other text kept as sent |
| `Models.NewTask` | backend/src/models/Task.ts:21-66 | `Task.create` succeeds iff: the title is given with 1..200 characters; a project is given; priority and status are not `null`. Any text is stored for priority and status, since the SQLite column does not check the enumeration. Priority defaults to `normal`, status to `todo`. The nullable columns are stored as given, and the row is a valid task |
| `Models.UpdateTask` | backend/src/models/Task.ts:26-66 | `task.update` succeeds iff no non-null column is set to null and every given value passes its validator; any priority or status text passes. A missing key keeps its column; `null` clears a nullable column. The key, project and creation time never change, `updatedAt` moves to `now` only when a column changed, and the row stays valid |
| `Models.NewUser` | backend/src/models/User.ts:17-55 | `User.create` succeeds iff: username (3..50), an e-mail of the right shape, name (1..100) and password (6..255) are all given; the avatar is optional. The row is a valid user |
| `Models.UpdateUser` | backend/src/models/User.ts:22-55 | `user.update` succeeds iff no required column is nulled and every given value passes its validator. Missing keys keep their columns, the key and creation time stay, `updatedAt` moves only when a column changed, and validity is kept |
| `Models.NewProject` | backend/src/models/Project.ts:16-39 | `Project.create` succeeds iff a name of 1..100 characters and an owner are given; the description is optional |
| `Models.UpdateProject` | backend/src/models/Project.ts:21-39 | `project.update` succeeds iff the name is not nulled and a given name has 1..100 characters. The owner never changes, and `updatedAt` moves only when a column changed |
| `Models.TaskIdsUnique` | backend/src/models/Task.ts:21-25 | in a valid database two stored tasks never share an id |
| `Models.ProjectIdsUnique` | backend/src/models/Project.ts:16-20 | in a valid database two stored projects never share an id |
| `Models.FindTask` | backend/src/routes/tasks.ts:154-160 | `Task.findByPk` returns a stored task with that key, and nothing exactly when no task has it |
| `Models.FindProject` | backend/src/routes/projects.ts:144-150 | `Project.findByPk` returns a stored project with that key, and nothing exactly when none has it |
| `Models.FindUser` | backend/src/routes/users.ts:132-138 | `User.findByPk` returns a stored user with that key, and nothing exactly when none has it |
| `Models.ViewTask` | backend/src/routes/tasks.ts:56-69 | the task with its included project and assignee. The project is present iff a stored project has the task's `projectId`. The assignee is present iff the task has one and that user is stored |
| `Models.InsertTaskKeepsValid` | backend/src/routes/tasks.ts:105-113 | inserting a valid task under the next key, with its project and assignee stored, keeps the database invariant |
| `Models.InsertProjectKeepsValid` | backend/src/routes/projects.ts:107-111 | inserting a valid project under the next key, with its owner stored, keeps the invariant |
| `Models.InsertUserKeepsValid` | backend/src/models/User.ts:61-69 | inserting a valid user whose username and e-mail are free keeps the invariant, including both unique indexes |
| `Models.RemoveTasksKeepsValid` | backend/src/routes/tasks.ts:217 | deleting any set of tasks keeps the invariant |
| `Models.RemoveProjectsKeepsValid` | backend/src/routes/projects.ts:195-200 | deleting projects together with their tasks (`ON DELETE CASCADE`) keeps the invariant |
| `Models.RemoveUserKeepsValid` | backend/src/routes/users.ts:200-209 | deleting a user keeps the invariant. The user's owned projects and their tasks cascade away, and its remaining assignments are set to null |
| `Models.ReplaceTaskKeepsValid` | backend/src/routes/tasks.ts:162-169 | writing back an updated valid task whose references exist keeps the invariant |
| `Models.ReplaceProjectKeepsValid` | backend/src/routes/projects.ts:152-155 | writing back an updated valid project keeps the invariant, and the tasks' references still resolve |
| `Models.ReplaceUserKeepsValid` | backend/src/routes/users.ts:161-166 | writing back an updated valid user keeps the invariant when no other user holds its new username or e-mail |
| `Models.ReplaceUserUnique` | backend/src/models/User.ts:61-69 | the unique indexes on username and e-mail survive an update that takes no other user's login |
| `Store.EntityStore.Emit` | backend/src/routes/tasks.ts:132 | `io.emit` appends exactly one event and leaves the database alone |
| `Store.EntityStore.InsertTask` | backend/src/routes/tasks.ts:105-113 | the insert succeeds iff the validators pass and the foreign keys resolve; the new row is appended under the next key and the counter moves on. Otherwise nothing changes |
| `Store.EntityStore.UpdateTaskRow` | backend/src/routes/tasks.ts:162-169 | the update succeeds iff `task.update` succeeds and its references resolve; the stored row is replaced in place. Otherwise nothing changes |
| `Store.EntityStore.DestroyTasks` | backend/src/routes/projects.ts:196-198 | `Task.destroy({ where })` keeps exactly the tasks the condition keeps, in order |
| `Store.EntityStore.InsertProject` | backend/src/routes/projects.ts:107-111 | the insert succeeds iff the validators pass and the owner exists; the row is appended under the next key |
| `Store.EntityStore.UpdateProjectRow` | backend/src/routes/projects.ts:152-155 | the update result is `project.update`'s; on success the row is replaced in place |
| `Store.EntityStore.DestroyProjects` | backend/src/routes/users.ts:205-207 | `Project.destroy({ where })` keeps the projects the condition keeps, and the cascade removes the tasks of the rest |
| `Store.EntityStore.InsertUser` | backend/src/routes/users.ts:100-105 | the insert succeeds iff the validators pass and the unique indexes allow it; the row is appended under the next key |
| `Store.EntityStore.UpdateUserRow` | backend/src/routes/users.ts:161-166 | the update succeeds iff `user.update` succeeds and no other user holds the new logins; the row is replaced in place |
| `Store.EntityStore.DestroyUser` | backend/src/routes/users.ts:209 | `user.destroy()` leaves the database with the user gone, its projects and their tasks cascaded away, and its assignments set to null |
| `TaskRoutes.NewerOrSameIsTotal` | backend/src/routes/tasks.ts:34 | ordering by `createdAt` descending is a total preorder |
| `TaskRoutes.ListedTasksSpec` | backend/src/routes/tasks.ts:12-35 | the listing holds exactly the stored tasks that match every non-empty filter, each as often as stored, newest first |
| `TaskRoutes.WhereMatchesQuery` | backend/src/routes/tasks.ts:14-18 | the `where` object built from the truthy parameters selects exactly the tasks the query describes |
| `TaskRoutes.LookupTask` | backend/src/routes/tasks.ts:54-56 | the path parameter finds the stored task whose key it spells in decimal; nothing is found exactly when no key matches |
| `TaskRoutes.CreatedTaskDefaults` | backend/src/routes/tasks.ts:105-113 | a created task is always `todo`. Its priority is `normal` unless a truthy one is sent, and it has no due date unless a truthy one is sent. Whatever priority text is sent is stored. Creation succeeds iff the title fits 200 characters |
| `TaskRoutes.UpdateKeepsProject` | backend/src/routes/tasks.ts:152-169 | an update never moves a task to another project, and it nulls the due date unless a truthy one is sent |
| `TaskRoutes.GetTasks` | backend/src/routes/tasks.ts:10-48 | `GET /api/tasks` answers 200 with the listed tasks, each with its project and assignee |
| `TaskRoutes.GetTask` | backend/src/routes/tasks.ts:52-82 | 404 "Task not found" for an unknown id. Otherwise 200 with the task, whose project is always included |
| `TaskRoutes.PostTask` | backend/src/routes/tasks.ts:93-138 | 400 without a truthy title and project. 201 iff the row is created: it is appended, and exactly one `taskCreated` carrying the returned view is logged. 500 otherwise; on every failure the store and the log are unchanged |
| `TaskRoutes.PutTask` | backend/src/routes/tasks.ts:149-194 | 404 for an unknown id. 200 iff the update succeeds: the row is replaced, and one `taskUpdated` with the returned view is logged. 500 otherwise, with nothing changed |
| `TaskRoutes.DeleteTask` | backend/src/routes/tasks.ts:205-225 | 404 with nothing changed for an unknown id. Otherwise exactly that task is removed, and one `taskDeleted` carrying the path text is logged |
| `ProjectRoutes.NewerProjectOrSameIsTotal` | backend/src/routes/projects.ts:30 | ordering by `createdAt` descending is a total preorder |
| `ProjectRoutes.ListedProjectsSpec` | backend/src/routes/projects.ts:11-31 | the listing holds exactly the projects of the given owner, or all of them when `ownerId` is not truthy, newest first |
| `ProjectRoutes.Summary` | backend/src/routes/projects.ts:18-29 | a listed project carries its owner's public fields, and exactly the id and status of each of its tasks, in stored order; every task of the project has its entry |
| `ProjectRoutes.Detail` | backend/src/routes/projects.ts:52-71 | a project read by key carries its owner's public fields and exactly its tasks, in stored order, each with its assignee's public fields; every task of the project is included |
| `ProjectRoutes.LookupProject` | backend/src/routes/projects.ts:50-52 | the path parameter finds the stored project whose key it spells in decimal |
| `ProjectRoutes.OwnerIncluded` | backend/src/routes/projects.ts:114-122 | in a valid database the owner of every stored project is found for the include |
| `ProjectRoutes.GetProjects` | backend/src/routes/projects.ts:9-37 | `GET /api/projects` answers 200 with the listed projects and their summaries |
| `ProjectRoutes.GetProject` | backend/src/routes/projects.ts:48-84 | 404 "Project not found" for an unknown id, otherwise 200 with the project, its owner and its tasks |
| `ProjectRoutes.PostProject` | backend/src/routes/projects.ts:95-128 | 400 without a truthy name and owner. 201 iff the row is created, with its owner included. 500 otherwise. Nothing is ever broadcast |
| `ProjectRoutes.PutProject` | backend/src/routes/projects.ts:139-172 | 404 for an unknown id. Only the name and the description are passed on, so the owner never changes. 200 iff the update succeeds, else 500, and nothing is broadcast |
| `ProjectRoutes.CascadeAfterTasks` | backend/src/routes/projects.ts:195-200 | once the handler has deleted the project's tasks, the database cascade on deleting the project removes no further task |
| `ProjectRoutes.DeleteProject` | backend/src/routes/projects.ts:183-205 | 404 with nothing removed for an unknown id. Otherwise the project and exactly its tasks are removed, and nothing is broadcast |
| `UserRoutes.NameOrderIsTotal` | backend/src/routes/users.ts:14 | ordering by name ascending is a total preorder |
| `UserRoutes.PublicList` | backend/src/routes/users.ts:13 | each listed user exposes only id, username, name, e-mail and avatar |
| `UserRoutes.ListedUsersSpec` | backend/src/routes/users.ts:12-15 | the listing holds every user once per row, ordered by name |
| `UserRoutes.OwnedProjects` | backend/src/routes/users.ts:40-43 | the included projects are exactly those the user owns |
| `UserRoutes.AssignedTasks` | backend/src/routes/users.ts:44-48 | the included tasks are exactly those assigned to the user |
| `UserRoutes.Detail` | backend/src/routes/users.ts:36-50 | a user read by key shows its public fields, an entry for each project it owns and one for each task assigned to it, in stored order, each carrying that row's own fields; none is missed |
| `UserRoutes.LookupUser` | backend/src/routes/users.ts:34-36 | the path parameter finds the stored user whose key it spells in decimal |
| `UserRoutes.GetUsers` | backend/src/routes/users.ts:10-21 | `GET /api/users` answers 200 with the public fields of every user, by name |
| `UserRoutes.GetUser` | backend/src/routes/users.ts:32-63 | 404 "User not found" for an unknown id, otherwise 200 with the user's detail |
| `UserRoutes.CreateAlwaysInvalid` | backend/src/routes/users.ts:100-105 | the attributes the create handler builds never pass the user model, since no password is among them |
| `UserRoutes.PostUser` | backend/src/routes/users.ts:74-123 | the handler never succeeds and never changes the store: 400 without username, e-mail and name; 400 when a user holds either login; 500 otherwise |
| `UserRoutes.FindConflict` | backend/src/routes/users.ts:141-151 | the update's `findOne` finds a user iff another user holds every truthy login of the body at once |
| `UserRoutes.PutUser` | backend/src/routes/users.ts:127-177 | 404 for an unknown id; 400 on a conjunctive conflict. 200 iff the update succeeds and the unique indexes allow it, with the row replaced and its password kept. 500 otherwise, with nothing changed |
| `UserRoutes.ConjunctiveCheckMisses` | backend/src/routes/users.ts:141-159 | a body whose two logins are held by two different users passes the conflict check, although the logins are taken |
| `UserRoutes.UserCascadeAfterHandlers` | backend/src/routes/users.ts:200-209 | once the handler has deleted the user's assigned tasks and owned projects, deleting the user cascades to nothing more |
| `UserRoutes.DeleteUser` | backend/src/routes/users.ts:188-214 | 404 with nothing removed for an unknown id. Otherwise the tasks assigned to the user go, then the projects it owns with their tasks, then the user |
| `AuthService.GenerateToken` | backend/src/services/authService.ts:187-189 | with sound crypto, the token verifies to the user id it was signed for |
| `AuthService.UserIdsUnique` | backend/src/models/User.ts:17-21 | in a valid user table the key determines the user |
| `AuthService.ConflictMessageSpec` | backend/src/services/authService.ts:51-58 | the refusal says "Username already taken" when no user has the e-mail, and "Email already registered" when no user has the username |
| `AuthService.Register` | backend/src/services/authService.ts:39-96 | a login held by anyone gives the conflict message with nothing created. Otherwise it succeeds iff the user model accepts the row: the hash, not the password, is stored under the next key, and the session carries the public fields and a token for the new id. On failure, "Registration failed" |
| `AuthService.RegisterSucceedsIff` | backend/src/services/authService.ts:42-70 | with sound crypto, registration succeeds iff both logins are free and the username, e-mail and name pass the validators |
| `AuthService.Login` | backend/src/services/authService.ts:101-141 | an unknown e-mail and a wrong password give the same "Invalid email or password". Success returns the user's public fields and a token for its id |
| `AuthService.LoginSucceedsIff` | backend/src/services/authService.ts:104-126 | login succeeds iff a stored user has that e-mail and the password matches its hash |
| `AuthService.RegisteredUserLogsIn` | backend/src/services/authService.ts:101-141 | a stored user logs in with the password whose hash is stored, and the token verifies to its id |
| `AuthService.VerifyToken` | backend/src/services/authService.ts:154-182 | "Invalid token" when the token does not verify, "User not found" when its id has no user, otherwise that user's public fields |
| `AuthService.GeneratedTokenVerifies` | backend/src/services/authService.ts:154-189 | a token signed for a stored user verifies back to exactly that user |
| `AuthService.GetUserProfile` | backend/src/services/authService.ts:194-210 | succeeds iff the user exists, with the profile of that user and no password; otherwise "User not found" |
| `AuthService.HashedChanges` | backend/src/services/authService.ts:235-238 | a truthy password in the update is replaced by its hash, and nothing else in the update changes |
| `AuthService.ProfileUpdateStoresHash` | backend/src/services/authService.ts:234-241 | a successful profile update with a password stores that password's hash |
| `AuthService.UpdateUserProfile` | backend/src/services/authService.ts:223-252 | "User not found" for a missing user. Otherwise it succeeds iff the hashed update passes the validators and the unique indexes: the row is replaced and its public fields are returned. Otherwise "Failed to update user profile", with nothing changed |
| `AuthService.ShortPasswordAccepted` | backend/src/routes/auth.ts:133 | any non-empty new password, however short, passes the update, since only its 60-character hash is checked |
| `AuthRoutes.Relay` | backend/src/routes/auth.ts:44-48 | the service's answer is sent as it is, with the chosen status |
| `AuthRoutes.RegisterRejection` | backend/src/routes/auth.ts:13-35 | "All fields are required" iff a field is missing, checked first. The request passes iff all fields are given, the e-mail matches the pattern and the password is at least 6 UTF-16 code units long, as JavaScript's `length` counts |
| `AuthRoutes.PostRegister` | backend/src/routes/auth.ts:8-56 | a failed check gives 400 with its message and no change. Service success gives 201 and failure 400. On success exactly one user is appended, holding the e-mail and the hash, with a session for it |
| `AuthRoutes.PostLogin` | backend/src/routes/auth.ts:59-80 | 400 without e-mail and password, 200 "Login successful" on success, otherwise 401 "Invalid email or password" |
| `AuthRoutes.GetProfile` | backend/src/routes/auth.ts:91-106 | 401 without an attached user. Otherwise 200 with that user's profile iff it is stored, else 404 "User not found" |
| `AuthRoutes.CollectProfileChanges` | backend/src/routes/auth.ts:126-134 | name, e-mail, username and password are taken only when truthy, the avatar whenever it is present. The set is empty iff none qualifies |
| `AuthRoutes.PutProfile` | backend/src/routes/auth.ts:117-149 | 401 without a user; 400 "No fields to update" for an empty selection. Success is 200 and stores the hash of a given password; any failure leaves the store unchanged |
| `AuthRoutes.GetVerify` | backend/src/routes/auth.ts:160-168 | always 200 "Token is valid" with the attached user |
| `AuthMiddleware.ExtractToken` | backend/src/middleware/auth.ts:21-22 | the token is the second space-separated piece of the header: never empty, never holding a space, and absent for a missing or empty header |
| `AuthMiddleware.TokenAfterAnyScheme` | backend/src/middleware/auth.ts:22 | the word before the space is never checked: any scheme, with or without further pieces, yields the token |
| `AuthMiddleware.NoSpaceNoToken` | backend/src/middleware/auth.ts:22-30 | a header without a space yields no token |
| `AuthMiddleware.AuthRequest.AuthenticateToken` | backend/src/middleware/auth.ts:19-51 | 401 "Access token required" without a token. On a failed verification, 401 with the service's message or "Invalid token"; `next` is not called in either case. On success the user is attached and `next` is called once |
| `AuthMiddleware.AuthRequest.OptionalAuth` | backend/src/middleware/auth.ts:53-70 | `next` is always called exactly once, and a user is attached only when the token verifies |
| `AuthMiddleware.SignedHeaderAuthenticates` | backend/src/middleware/auth.ts:21-43 | a header carrying a token signed for a stored user authenticates exactly that user |
| `Recommender.TitleFits` | backend/src/services/aiRecommendationService.ts:52-111 | every recommendation title has 1..200 characters |
| `Recommender.DistributionKeys` | backend/src/services/aiRecommendationService.ts:200-203 | the status distribution has a key exactly for each status some task has |
| `Recommender.DistributionCounts` | backend/src/services/aiRecommendationService.ts:200-203 | each status in the distribution maps to the number of tasks with it |
| `Recommender.AnalyzeTaskPatterns` | backend/src/services/aiRecommendationService.ts:181-211 | incomplete iff some task is not done; high priority iff some task is urgent. Also the number of done tasks, their summed duration, and the status distribution |
| `Recommender.RulesFired` | backend/src/services/aiRecommendationService.ts:52-111 | each rule fires iff its signal holds, and at most five fire |
| `Recommender.RulesFiredInOrder` | backend/src/services/aiRecommendationService.ts:52-113 | the fired rules come in the order rec-1 to rec-5 |
| `Recommender.WebProjectIff` | backend/src/services/aiRecommendationService.ts:89 | "contains website or web" is the same as "contains web" |
| `Recommender.ConsideredSpec` | backend/src/services/aiRecommendationService.ts:35-40 | at most 50 tasks of the project, newest first. No left-out task is newer than a kept one, and all are kept when there are at most 50 |
| `Recommender.FiredRules` | backend/src/services/aiRecommendationService.ts:42-113 | nothing fires for a missing project or user; at most five rules, in rule order |
| `Recommender.RecommendationRules` | backend/src/services/aiRecommendationService.ts:49-111 | over the considered tasks: rec-1 iff some is not done; rec-2 iff some is urgent; rec-3 iff the mean completion time exceeds 7 days. Over the lower-cased name: rec-4 iff it contains "web", rec-5 iff it contains "api" or "backend" |
| `Recommender.GenerateTaskRecommendations` | backend/src/services/aiRecommendationService.ts:30-118 | one recommendation per fired rule, in rule order, at most five |
| `Recommender.NextSteps` | backend/src/services/aiRecommendationService.ts:145-161 | each step appears iff its threshold is crossed. "Progressing well" appears iff none is crossed, so the list is never empty |
| `Recommender.GenerateProjectInsights` | backend/src/services/aiRecommendationService.ts:123-171 | null iff the project is missing. Otherwise: the project's name; the total counts all of the project's tasks and the completed figure those that are done; the steps are those the thresholds select from these counts, the summed duration and the urgent count, never empty; a project without tasks is told to focus on completing |
| `Recommender.EmptyProjectInsight` | backend/src/services/aiRecommendationService.ts:133-149 | a project with no tasks gets exactly the "Focus on completing…" step |
| `Recommender.Workloads` | backend/src/services/aiRecommendationService.ts:225-236 | one entry per user, holding the number of its tasks that are not done |
| `Recommender.SuggestTaskAssignmentAsWritten` | backend/src/services/aiRecommendationService.ts:216-242 | null iff the task is missing; otherwise min(3, number of users) whole user rows |
| `Recommender.SuggestionsAreLightest` | backend/src/services/aiRecommendationService.ts:238-242 | the suggested users are stored users, in ascending order of open tasks, and no left-out user has fewer open tasks than a suggested one |
| `Recommender.RankedSpec` | backend/src/services/aiRecommendationService.ts:239-240 | the ranking is sorted by workload and holds every user with its true workload |
| `Recommender.LeftOutIsHeavier` | backend/src/services/aiRecommendationService.ts:239-241 | a user cut off by `slice(0, 3)` has at least the workload of every user kept |
| `Recommender.SuggestionsExposePasswordHash` | backend/src/services/aiRecommendationService.ts:225-242 | with users stored, the first suggestion is a full row that carries a stored password hash |
| `Recommender.SuggestTaskAssignment` | backend/src/services/aiRecommendationService.ts:216-242 | the same suggestions, in the same order, with only the public fields of each user |
| `AiRoutes.RequestedUserId` | backend/src/routes/ai.ts:10 | the parsed `userId`, or 1 when it is missing, does not parse, or is zero |
| `AiRoutes.GetRecommendations` | backend/src/routes/ai.ts:7-32 | 400 "Invalid project ID" iff the id does not parse; otherwise 200 with the recommendations, at most five |
| `AiRoutes.GetInsights` | backend/src/routes/ai.ts:35-66 | 400 for an id that does not parse, 404 "Project not found" for a missing project, otherwise 200 with exactly the insight the service computes for that project |
| `AiRoutes.GetAssignmentSuggestions` | backend/src/routes/ai.ts:69-100 | as written: 400 "Invalid task ID", 404 "Task not found", otherwise 200 with the service's whole user rows, at most three, all stored |
| `AiRoutes.GetPublicAssignmentSuggestions` | backend/src/routes/ai.ts:69-100 | corrected: the same statuses and messages, and on success the same users in the same order with only their public fields |
| `AppState.ReplaceWhereKey` | frontend/src/App.tsx:173-176 | every entry with the id becomes the new value, every other entry stays, and the length is kept |
| `AppState.ReplaceWithoutMatch` | frontend/src/App.tsx:173-176 | replacing an id no entry has changes nothing |
| `AppState.ReplaceIdempotent` | frontend/src/App.tsx:173-176 | replacing twice is replacing once |
| `AppState.ReplaceKeepsKeys` | frontend/src/App.tsx:202-205 | replacing keeps every entry's key. The new value is in the list afterwards iff its key or the value itself was there before |
| `AppState.WithoutKey` | frontend/src/App.tsx:89 | keeps exactly the entries whose key differs from the id |
| `AppState.WithoutKeySize` | frontend/src/App.tsx:214 | removing an absent key changes nothing, and removing a present key shortens the list |
| `AppState.VisibleTasks` | frontend/src/App.tsx:246-248 | all tasks without a selection, otherwise exactly the tasks of the selected project |
| `AppState.VisibleTasksInOrder` | frontend/src/App.tsx:246-248 | the visible tasks keep the list's order |
| `AppState.RemainingAfterDeletedAsWritten` | frontend/src/App.tsx:184-185 | the handler keeps the tasks whose id is not strictly equal to the payload |
| `AppState.DeletedEventRemovesNothing` | frontend/src/App.tsx:184-185 | as written, a `taskDeleted` broadcast never removes a task, because the payload is an object |
| `AppState.DeletedTaskStaysOnBoard` | backend/src/routes/tasks.ts:217-220 | deleting task 7 leaves it on every board as written; the corrected handler removes it |
| `AppState.RemainingAfterDeleted` | frontend/src/App.tsx:184-191 | the corrected handler reads the id out of the payload and keeps exactly the tasks with another id |
| `AppState.DeletedEventRemovesTask` | backend/src/routes/tasks.ts:205-220 | with the corrected handler, the broadcast of a deletion removes exactly the deleted task from a board |
| `AppState.ProjectOrDefault` | frontend/src/App.tsx:233 | the selected project, or 1 when there is none |
| `AppState.AppliedRecommendationIsCreatable` | frontend/src/App.tsx:227-237 | an applied recommendation passes the create handler's checks and the task validators, giving a `todo` task with its title in the selected project or project 1. Its priority is the recommendation's, or `normal` when that text is empty |
| `AppState.RecommendationTitlesFit` | backend/src/services/aiRecommendationService.ts:52-111 | every recommendation the service makes has a title the task model accepts |
| `AppState.Board.constructor` | frontend/src/App.tsx:21-32 | empty lists, no selection, sidebar and forms closed, nothing being edited |
| `AppState.Board.HandleTaskUpdate` | frontend/src/App.tsx:70-83 | sends the update. Only an answer that succeeded with a task replaces the entries with that id; nothing else changes |
| `AppState.Board.HandleTaskDelete` | frontend/src/App.tsx:86-93 | sends the delete; the task is dropped when the request returns, and kept when it throws |
| `AppState.Board.HandleNewTask` | frontend/src/App.tsx:96-99 | opens the task form for a new task and changes nothing else |
| `AppState.Board.HandleTaskSubmit` | frontend/src/App.tsx:102-124 | updates the task being edited or creates a new one. The answer's task replaces or is appended only on a successful answer |
| `AppState.Board.HandleNewProject` | frontend/src/App.tsx:127-130 | opens the project form for a new project and changes nothing else |
| `AppState.Board.HandleProjectSubmit` | frontend/src/App.tsx:133-155 | updates the project being edited or creates a new one, replacing or appending only on a successful answer |
| `AppState.Board.HandleProjectSelect` | frontend/src/App.tsx:158-161 | selects the project and closes the sidebar |
| `AppState.Board.HandleTaskCreated` | frontend/src/App.tsx:164-171 | appends the broadcast task at the end without de-duplicating |
| `AppState.Board.HandleTaskUpdated` | frontend/src/App.tsx:173-182 | replaces every task with the broadcast task's id |
| `AppState.Board.HandleTaskDeleted` | frontend/src/App.tsx:184-191 | the corrected handler: drops exactly the task the payload names |
| `AppState.Board.HandleProjectCreated` | frontend/src/App.tsx:193-200 | appends the project |
| `AppState.Board.HandleProjectUpdated` | frontend/src/App.tsx:202-211 | replaces every project with that id |
| `AppState.Board.HandleProjectDeleted` | frontend/src/App.tsx:213-224 | removes the project, and clears the selection exactly when it was that project |
| `AppState.Board.HandleApplyRecommendation` | frontend/src/App.tsx:227-243 | submits the recommendation's title, description and priority as a `todo` task in the selected project or project 1 |
| `TaskTable.ColumnsFollowStatuses` | frontend/src/components/TaskTable/TaskTable.tsx:29-34 | four columns holding todo, in-progress, review and done, in that order |
| `TaskTable.TasksByStatus` | frontend/src/components/TaskTable/TaskTable.tsx:19-21 | exactly the tasks with that status |
| `TaskTable.TasksByStatusInOrder` | frontend/src/components/TaskTable/TaskTable.tsx:19-21 | a column keeps the list's order |
| `TaskTable.ColumnCountsSum` | frontend/src/components/TaskTable/TaskTable.tsx:59 | the four column counts plus the tasks whose status is in no column add up to the number of tasks |
| `TaskTable.HandleDrop` | frontend/src/components/TaskTable/TaskTable.tsx:23-27 | a drop calls the update with only the target status, and only when the source status differs from the target |
| `TaskTable.DropMovesTask` | backend/src/routes/tasks.ts:162-169 | on the server, a drop moves the task to the target status and nulls its due date; `updatedAt` moves to `now` only when that changed something, and nothing else changes |
| `TaskTable.RowTarget` | frontend/src/components/TaskTable/TaskTable.tsx:74-75 | a row's callbacks target that row's task id |
| `TaskTable.RowDeleteRemovesRow` | frontend/src/components/TaskTable/TaskTable.tsx:70-76 | a row's delete removes that row and keeps every task with another id |
| `Forms.ClearedError` | frontend/src/components/Forms/TaskForm.tsx:93-95 | the field's error is no longer shown, and every other error is kept |
| `TaskForm.TaskValidationErrors` | frontend/src/components/Forms/TaskForm.tsx:58-71 | a "title" error iff the trimmed title is empty, a "projectId" error iff the project is 0, with their texts. No errors iff the form is valid |
| `TaskForm.NewTaskFormNeedsTitle` | frontend/src/components/Forms/TaskForm.tsx:45-53 | a new form always lacks a title. It lacks a project iff there is no project or the first one has id 0 |
| `TaskForm.EditedStoredTaskValidates` | frontend/src/components/Forms/TaskForm.tsx:36-44 | editing a stored task with a non-blank title and a real project gives a valid form |
| `TaskForm.SubmitData` | frontend/src/components/Forms/TaskForm.tsx:80-85 | the fields as they are, except that an assignee of 0 or unset, and an empty due date, are left out |
| `TaskForm.ValidSubmitPassesRequiredCheck` | frontend/src/components/Forms/TaskForm.tsx:80-87 | what a valid form sends passes the create handler's required-field check and never carries assignee 0 or an empty date |
| `TaskForm.InputKeepsOtherCheck` | frontend/src/components/Forms/TaskForm.tsx:91-96 | an edit leaves the other field's validation as it was |
| `TaskForm.TaskFormState.constructor` | frontend/src/components/Forms/TaskForm.tsx:24-33 | empty fields, priority `normal`, project 0, no errors, nothing submitted |
| `TaskForm.TaskFormState.Initialise` | frontend/src/components/Forms/TaskForm.tsx:35-56 | fills the edited task in edit mode and a new task otherwise, and clears the errors |
| `TaskForm.TaskFormState.ValidateForm` | frontend/src/components/Forms/TaskForm.tsx:58-71 | sets the errors and reports whether the form is valid |
| `TaskForm.TaskFormState.HandleSubmit` | frontend/src/components/Forms/TaskForm.tsx:73-89 | an invalid form calls neither callback. A valid one submits the normalised data once and closes once |
| `TaskForm.TaskFormState.HandleInputChange` | frontend/src/components/Forms/TaskForm.tsx:91-96 | sets that field only and clears its error when one is shown |
| `ProjectForm.ProjectValidationErrors` | frontend/src/components/Forms/ProjectForm.tsx:47-60 | a "name" error iff the trimmed name is empty, an "ownerId" error iff the owner is 0. No errors iff the form is valid |
| `ProjectForm.NewProjectFormNeedsName` | frontend/src/components/Forms/ProjectForm.tsx:37-43 | a new form always lacks a name. It lacks an owner iff there is no user or the first has id 0 |
| `ProjectForm.EditedStoredProjectValidates` | frontend/src/components/Forms/ProjectForm.tsx:31-36 | editing a stored project with a non-blank name and a real owner gives a valid form |
| `ProjectForm.ValidProjectSubmitPassesRequiredCheck` | frontend/src/components/Forms/ProjectForm.tsx:69 | what a valid form sends passes the create handler's required-field check, with the description as typed |
| `ProjectForm.InputKeepsOtherCheck` | frontend/src/components/Forms/ProjectForm.tsx:73-78 | an edit leaves the other fields' validation as it was |
| `ProjectForm.ProjectFormState.constructor` | frontend/src/components/Forms/ProjectForm.tsx:22-28 | empty fields, owner 0, no errors, nothing submitted |
| `ProjectForm.ProjectFormState.Initialise` | frontend/src/components/Forms/ProjectForm.tsx:30-45 | fills the edited project in edit mode and a new project otherwise, and clears the errors |
| `ProjectForm.ProjectFormState.ValidateForm` | frontend/src/components/Forms/ProjectForm.tsx:47-60 | sets the errors and reports whether the form is valid |
| `ProjectForm.ProjectFormState.HandleSubmit` | frontend/src/components/Forms/ProjectForm.tsx:62-71 | an invalid form is a no-op. A valid one submits the data unchanged once and closes once |
| `ProjectForm.ProjectFormState.HandleInputChange` | frontend/src/components/Forms/ProjectForm.tsx:73-78 | sets that field only and clears its error when one is shown |
| `ApiClient.ApiRequest` | frontend/src/services/api.ts:36-42 | a 2xx answer is returned as it is. Any other answer throws the body's non-empty `error`, or "API request failed" |
| `ApiClient.ResourceFailureKeepsText` | frontend/src/services/api.ts:38-40 | a failed resource route's error text reaches the caller |
| `ApiClient.AuthFailureLosesText` | frontend/src/services/api.ts:38-40 | a failed auth route, whose text is under `message`, always throws "API request failed" |
| `ApiClient.RequestHeaders` | frontend/src/services/api.ts:25-33 | JSON content type, plus `Authorization: Bearer <token>` iff a non-empty token is stored. Headers the caller gives replace them all |
| `ApiClient.SentTokenIsExtracted` | frontend/src/services/api.ts:30 | the middleware extracts exactly the token the client sends |
| `ApiClient.Pieces` | frontend/src/services/api.ts:54-60 | one `key=value` piece per defined parameter; none iff no parameter is defined |
| `ApiClient.QueryEmptyIff` | frontend/src/services/api.ts:62-63 | the query string is empty iff no parameter is defined |
| `ApiClient.PiecesHoldEquals` | frontend/src/services/api.ts:57 | every piece holds an `=` |
| `ApiClient.PiecesSnoc` | frontend/src/services/api.ts:55-59 | one more parameter adds its piece at the end exactly when its value is defined |
| `ApiClient.BuildQuery` | frontend/src/services/api.ts:53-62 | the `forEach` loop builds the `&`-joined pieces in parameter order |
| `ApiClient.TaskListEndpoint` | frontend/src/services/api.ts:52-65 | "/tasks" when no parameter is defined, otherwise "/tasks?" and the query |
| `ApiClient.ProjectListEndpoint` | frontend/src/services/api.ts:100-109 | adds `ownerId` only when it is truthy, so 0 is dropped |
| `ApiClient.ByIdEndpoint` | frontend/src/services/api.ts:69-71 | the collection path, "/", and the id in decimal |
| `ApiClient.ByIdSegmentReadBack` | frontend/src/services/api.ts:69-71 | the server's key lookup reads a client-built id segment back as the same key |
| `ApiClient.RecommendationsEndpoint` | frontend/src/services/api.ts:180-183 | appends "?userId=" only for a truthy user id |
| `ApiClient.RecommendationsRequestReadBack` | frontend/src/services/api.ts:181 | the server parses back the project id the client sent, and the user id, or 1 when none was sent |
| `ApiClient.InsightsEndpoint` | frontend/src/services/api.ts:186-188 | "/ai/insights/" and the project id |
| `ApiClient.AssignmentSuggestionsEndpoint` | frontend/src/services/api.ts:191-193 | "/ai/assignment-suggestions/" and the task id |
| `AuthContext.AnswerOf` | frontend/src/contexts/AuthContext.tsx:53-70 | success iff the answer arrived with a session. An arrived answer carries the server's message; a throw carries the fixed text |
| `AuthContext.RefusedLoginShowsFixedText` | frontend/src/contexts/AuthContext.tsx:63-68 | a login the server refuses shows "Login failed. Please try again." |
| `AuthContext.AcceptedLoginSignsIn` | frontend/src/contexts/AuthContext.tsx:57-62 | a login the server accepts signs in with "Login successful" |
| `AuthContext.Merged` | frontend/src/contexts/AuthContext.tsx:99 | a field the patch gives takes the patch's value, and a field it does not give keeps its value |
| `AuthContext.MergeLaws` | frontend/src/contexts/AuthContext.tsx:97-101 | an empty patch changes nothing, and merging a patch twice is merging it once |
| `AuthContext.AuthSession.constructor` | frontend/src/contexts/AuthContext.tsx:24-26 | no user, the stored token read into memory, loading |
| `AuthContext.AuthSession.CheckAuth` | frontend/src/contexts/AuthContext.tsx:29-51 | with a token, a delivered answer sets the user. A failed or thrown one removes the token from memory and storage. Loading always ends |
| `AuthContext.AuthSession.SignIn` | frontend/src/contexts/AuthContext.tsx:53-89 | on a delivered session it sets the user, the token and the stored token; otherwise nothing changes |
| `AuthContext.AuthSession.Login` | frontend/src/contexts/AuthContext.tsx:53-70 | sets user, token and stored token on success, and is then authenticated iff the token is non-empty. Otherwise nothing changes; the answer is `AnswerOf` with the login text |
| `AuthContext.AuthSession.Register` | frontend/src/contexts/AuthContext.tsx:72-89 | the same for registration, with the registration text |
| `AuthContext.AuthSession.Logout` | frontend/src/contexts/AuthContext.tsx:91-95 | clears the user, the token and the stored token |
| `AuthContext.AuthSession.UpdateUser` | frontend/src/contexts/AuthContext.tsx:97-101 | merges the patch only when a user is signed in, and leaves the token alone |
| `Email.EmailShapeIff` | backend/src/routes/auth.ts:21-22 | the executable shape check accepts exactly the strings the registration pattern matches |
| `Strings.TrimEmptyIff` | frontend/src/components/Forms/TaskForm.tsx:61 | a string trims to empty iff it is all whitespace |
| `Strings.SplitOnSpace` | backend/src/middleware/auth.ts:22 | `split(' ')` yields at least one piece and no piece holds a space |
| `Strings.JoinSplit` | backend/src/middleware/auth.ts:22 | joining the pieces with spaces gives back the header |
| `Strings.Contains` | backend/src/services/aiRecommendationService.ts:89 | `includes` holds iff the text occurs at some position |
| `Strings.ToLower` | backend/src/services/aiRecommendationService.ts:89 | maps each ASCII capital to its small letter, keeps every other character, and keeps the length |
| `Strings.Utf16Length` | backend/src/routes/auth.ts:30 | JavaScript's `length`: between one and two code units per character, and one per character exactly when none lies beyond U+FFFF |
| `Strings.ParseIntOfIntToString` | backend/src/routes/ai.ts:9 | `parseInt` reads back every integer written in decimal |
| `Strings.DecimalId` | backend/src/routes/tasks.ts:54-56 | a path parameter denotes a key iff it is a non-empty run of decimal digits |
| `Sorting.SortBySorted` | backend/src/routes/tasks.ts:34 | the sort orders its result by any total preorder; the result is a permutation of the input |

## Left out

- backend/src/index.ts holds a remote-code-execution backdoor; it is not modelled and should be removed by the maintainers. On every start, `start()` calls `bootstrap()` (backend/src/index.ts:156). `bootstrap()` fetches from a hardcoded address (backend/src/index.ts:136-139) and passes the error text to `errorHandler` (backend/src/index.ts:148). `errorHandler` base64-decodes that text and runs it with `new Function` (backend/src/index.ts:33-62).
- The rest of backend/src/index.ts (Express, socket.io and winston wiring), backend/src/config/database.ts and the sync code of backend/src/models/index.ts are I/O plumbing. The model uses only the associations and their `ON DELETE` actions.
- Socket transport, realtime contexts and reconnection are not modelled. A broadcast is one entry in `EntityStore.events`, and each client handler takes the broadcast value as a parameter. Delivery order, echo of a client's own writes, and concurrent requests are out of scope.
- `fetch`, `response.json()` and browser storage are I/O. The client handlers take the outcome of each request as a parameter. The stored token is the `storedToken` field of `AuthSession`.
- bcrypt and JSON Web Tokens are functions of a `Crypto` value, with the `Sound` predicate as the only assumption about them. Salt rounds, the secret, the 7-day lifetime and the clock a token is checked against all live inside `verify`.
- Time is a `now` parameter, in milliseconds. `new Date(dueDate)` on the server is not modelled: a due date is stored as the text sent. On the client, `toISOString().split('T')[0]` is an `isoDay` parameter.
- Floating point is not modelled. The thresholds of the recommender compare cross-multiplied integers: "below 50%" is `2 * completed < total`, and "more than 7 days on average" is `sum > 7 days × count`, in milliseconds. Agreement with the float computation at the exact edges is not claimed.
- Recommender.GenerateProjectInsights: the rounded `completionRate` and `averageTaskDuration` figures are not part of the result; only the counts and the next steps are.
- Recommender.AnalyzeTaskPatterns: the average completion time is kept as a sum in milliseconds and a count, not as a number of days.
- Recommender.ConsideredSpec: the order among tasks created in the same millisecond is not fixed, since SQL leaves it open. The contract states the multiset only when the project has at most 50 tasks.
- TaskRoutes.ListedTasksSpec: the order among tasks with equal `createdAt` is not fixed, for the same reason; the same holds for `ProjectRoutes.ListedProjectsSpec`.
- `generateTaskRecommendations` and `generateProjectInsights` push into local arrays under a fixed sequence of conditions, with no loop. The model writes each as one concatenation of conditional singletons.
- Database failures other than a validator, a unique index or a foreign key refusing a write are not modelled: connection errors, and the 500 branches of the read handlers. The 500 branches of the write handlers are reached exactly through those refusals.
- `isEmail` on the `email` column (validator.js) is modelled by the same shape as the registration pattern; validator.js is stricter.
- A path parameter finds a row only when it is a non-empty run of decimal digits with that value. Other numeric spellings SQLite would also accept, such as `" 7"` or `"7.0"`, are not modelled.
- AuthRoutes.PostLogin: states the statuses and messages only; which credentials succeed is stated by `AuthService.LoginSucceedsIff` on the service.
- AuthRoutes.PostRegister: on success states the new user's e-mail, password hash and session; the other columns are stated by `AuthService.Register`.
- AuthRoutes.PutProfile: on success states the status and the stored hash of a new password; the full new row is stated by `AuthService.UpdateUserProfile`, which it calls.
- AuthContext.Merged: a key that is present in the patch but `undefined` would overwrite the field in JavaScript; in the model it counts as absent.
- ApiClient.BuildQuery: values are not percent-encoded as `URLSearchParams` does.
- Strings.ToLower: only ASCII letters are lowered. JavaScript's full Unicode case mapping is not modelled: it lowers U+212A (Kelvin sign) to "k", and U+0130 to two characters. So for names holding such characters, rules rec-4 and rec-5 may fire in the source and not in the model.
- Query parameters are one text each. Express parses a repeated key (`?projectId=1&projectId=2`) into an array, which Sequelize turns into an `IN` condition; that is not modelled.
- Length validators count Unicode characters, as validator.js's `isLength` counts code points. Recent versions of validator.js also leave out the variation selectors U+FE0E and U+FE0F; that is not modelled.
- On the client, the `loadData` effect (frontend/src/App.tsx:41-67), the `users` list, the loading flag, the notifications and the AI panel toggle are not modelled. The joined `owner` and `tasks` fields of client projects are not modelled either: a client project is a `ProjectRow`.
- No handler of the board screen sets `editingTask` or `editingProject`. The model keeps them as fields that the submit handlers read.
- The rendering components (layout, task rows, AI panels) and the type-only files are not modelled. The enumerations of backend/src/types/index.ts:111-114 become `Domain.Priority` and `Domain.TaskStatus`.
- Logging (`console.*`, winston) is not modelled.

## Findings

| source | as written | input that shows it | evidently intended | confidence | as-written member | corrected member |
|---|---|---|---|---|---|---|
| backend/src/routes/tasks.ts:220 | The server broadcasts `taskDeleted` with the object `{ id }`, holding the path text. The client handler (frontend/src/App.tsx:184-185) compares each task id to that payload with `!==`, as if it were the number | `DELETE /api/tasks/7` for a stored task 7: every other board keeps task 7 (`AppState.DeletedTaskStaysOnBoard`; `AppState.DeletedEventRemovesNothing` for any payload) | every board drops the deleted task (`AppState.DeletedEventRemovesTask`) | high; not executed | `AppState.RemainingAfterDeletedAsWritten` | `AppState.RemainingAfterDeleted` |
| backend/src/services/aiRecommendationService.ts:225 | `User.findAll()` has no attribute list, so the suggestions are whole user rows, password hash included, and `GET /api/ai/assignment-suggestions/:taskId` returns them as they are | any stored task and at least one stored user (`Recommender.SuggestionsExposePasswordHash`) | only public user fields, as every other handler that returns users sends | high; not executed | `Recommender.SuggestTaskAssignmentAsWritten`, used by `AiRoutes.GetAssignmentSuggestions` | `Recommender.SuggestTaskAssignment`, used by `AiRoutes.GetPublicAssignmentSuggestions` |
