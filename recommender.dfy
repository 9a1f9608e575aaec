/** The rule-based recommendation service: fixed recommendations chosen by threshold tests
    over a project's tasks and name, a completion summary of a project, and the users with the
    lightest open workload as assignment candidates.

    Times are integer milliseconds. The service divides day counts and percentages in floating
    point; here every threshold on an average or a rate is the cross-multiplied integer
    comparison. */
module Recommender {
  import opened Wrappers
  import opened Strings
  import opened Sorting
  import opened Domain
  import opened Models
  import TaskRoutes

  /** A recommendation; `confidence` is in hundredths (0.9 is 90). */
  datatype Recommendation = Recommendation(
    id: string, title: string, description: string, priority: Priority,
    estimatedHours: nat, confidence: nat, reason: string)

  /** The five rules, in the order the service tries them. */
  datatype Rule = CompletePending | ReviewHighPriority | BreakDownTasks | ResponsiveTesting | ApiDocumentation

  /** The order the rules are tried in, rec-1 to rec-5. */
  function Rank(rule: Rule): nat {
    match rule
    case CompletePending => 1
    case ReviewHighPriority => 2
    case BreakDownTasks => 3
    case ResponsiveTesting => 4
    case ApiDocumentation => 5
  }

  /** The title of a rule's recommendation, which the client copies into a new task. */
  function Title(rule: Rule): string {
    match rule
    case CompletePending => "Complete pending tasks"
    case ReviewHighPriority => "Review high priority items"
    case BreakDownTasks => "Break down complex tasks"
    case ResponsiveTesting => "Add responsive design testing"
    case ApiDocumentation => "Add API documentation"
  }

  /** Each title is one a task can take: not empty and at most 200 characters. */
  lemma TitleFits(rule: Rule)
    ensures 1 <= |Title(rule)| <= 200
  {
    match rule
    case CompletePending =>
    case ReviewHighPriority =>
    case BreakDownTasks =>
    case ResponsiveTesting =>
    case ApiDocumentation =>
  }

  /** The other fields of a rule's recommendation. */
  datatype Advice = Advice(
    id: string, description: string, priority: Priority, estimatedHours: nat, confidence: nat, reason: string)

  function AdviceOf(rule: Rule): Advice {
    match rule
    case CompletePending => Advice("rec-1",
      "Focus on completing existing tasks before starting new ones", Urgent, 2, 90,
      "High number of incomplete tasks detected")
    case ReviewHighPriority => Advice("rec-2",
      "Review and update priority levels for better project flow", Normal, 1, 80,
      "Multiple high priority tasks identified")
    case BreakDownTasks => Advice("rec-3",
      "Consider breaking larger tasks into smaller, manageable pieces", Normal, 3, 70,
      "Tasks taking longer than average to complete")
    case ResponsiveTesting => Advice("rec-4",
      "Ensure website works well on mobile and tablet devices", Normal, 4, 60,
      "Web project detected - common requirement")
    case ApiDocumentation => Advice("rec-5",
      "Create comprehensive API documentation for developers", Normal, 6, 70,
      "Backend/API project detected - documentation is crucial")
  }

  /** The recommendation a rule adds. */
  function Details(rule: Rule): Recommendation {
    var a := AdviceOf(rule);
    Recommendation(a.id, Title(rule), a.description, a.priority, a.estimatedHours, a.confidence, a.reason)
  }

  /** One day in milliseconds. */
  const DayMs := 1000 * 60 * 60 * 24

  /** The average of `count` durations summing to `sumMs` exceeds `days` days; an empty set
      of durations averages to 0. */
  predicate AverageExceedsDays(sumMs: int, count: nat, days: nat) {
    count > 0 && sumMs > days * DayMs * count
  }

  /** From creation to the last update. */
  function Duration(t: TaskRow): int {
    t.updatedAt - t.createdAt
  }

  /** The sum of the durations, accumulated from the left. */
  function DurationSum(tasks: seq<TaskRow>): int {
    if tasks == [] then 0 else DurationSum(tasks[..|tasks| - 1]) + Duration(tasks[|tasks| - 1])
  }

  function IsDone(): TaskRow -> bool { (t: TaskRow) => t.status == Done }
  function StatusIs(st: TaskStatus): TaskRow -> bool { (t: TaskRow) => t.status == st }
  function IsUrgent(): TaskRow -> bool { (t: TaskRow) => t.priority == Urgent }

  /** The per-status tally, built by adding one task at a time: a status is a key exactly
      when some task has it, and its value is the number of such tasks. */
  function Distribution(tasks: seq<TaskRow>): map<TaskStatus, nat> {
    if tasks == [] then map[]
    else
      var d := Distribution(tasks[..|tasks| - 1]);
      var st := tasks[|tasks| - 1].status;
      d[st := (if st in d then d[st] else 0) + 1]
  }

  /** A status is a key of the tally exactly when some task has it. */
  lemma {:induction false} DistributionKeys(tasks: seq<TaskRow>)
    ensures forall st :: st in Distribution(tasks) <==> exists t :: t in tasks && t.status == st
  {
    if tasks != [] {
      var init, last := tasks[..|tasks| - 1], tasks[|tasks| - 1];
      DistributionKeys(init);
      assert tasks == init + [last];
      assert last in tasks;
      forall st | exists t :: t in tasks && t.status == st ensures st in Distribution(tasks) {
        var t :| t in tasks && t.status == st;
        assert t in init || t == last;
      }
      forall st | st in Distribution(tasks) ensures exists t :: t in tasks && t.status == st {
        if st != last.status {
          assert st in Distribution(init);
          var t :| t in init && t.status == st;
          assert t in tasks;
        }
      }
    }
  }

  /** The value of a status in the tally is the number of tasks with that status. */
  lemma {:induction false} DistributionCounts(tasks: seq<TaskRow>)
    ensures forall st :: st in Distribution(tasks) ==> Distribution(tasks)[st] == Count(tasks, StatusIs(st))
  {
    if tasks != [] {
      var init, last := tasks[..|tasks| - 1], tasks[|tasks| - 1];
      DistributionCounts(init);
      DistributionKeys(init);
      assert tasks == init + [last];
      forall st | st in Distribution(tasks) ensures Distribution(tasks)[st] == Count(tasks, StatusIs(st)) {
        FilterSnoc(init, last, StatusIs(st));
        assert st !in Distribution(init) ==> Count(init, StatusIs(st)) == 0;
      }
    }
  }

  /** What the recommendation rules look at in the considered tasks. */
  datatype TaskPatterns = TaskPatterns(
    hasIncompleteTasks: bool, hasHighPriorityTasks: bool,
    completedCount: nat, completedDurationMs: int, taskDistribution: map<TaskStatus, nat>)

  /** `analyzeTaskPatterns`. */
  function AnalyzeTaskPatterns(tasks: seq<TaskRow>): (p: TaskPatterns)
    ensures p.hasIncompleteTasks <==> exists t :: t in tasks && t.status != Done
    ensures p.hasHighPriorityTasks <==> exists t :: t in tasks && t.priority == Urgent
    ensures p.completedCount == Count(tasks, IsDone()) <= |tasks|
    ensures p.completedDurationMs == DurationSum(Filter(tasks, IsDone()))
    ensures p.completedCount == 0 <==> forall t :: t in tasks ==> t.status != Done
    ensures forall st :: st in p.taskDistribution <==> exists t :: t in tasks && t.status == st
    ensures forall st :: st in p.taskDistribution ==> p.taskDistribution[st] == Count(tasks, StatusIs(st))
  {
    DistributionKeys(tasks);
    DistributionCounts(tasks);
    var incomplete := Filter(tasks, (t: TaskRow) => t.status != Done);
    var urgent := Filter(tasks, IsUrgent());
    var completed := Filter(tasks, IsDone());
    assert |incomplete| > 0 ==> incomplete[0] in incomplete;
    assert |urgent| > 0 ==> urgent[0] in urgent;
    TaskPatterns(|incomplete| > 0, |urgent| > 0, Count(tasks, IsDone()), DurationSum(completed), Distribution(tasks))
  }

  /** The completed tasks take more than a week on average. */
  predicate SlowCompletion(p: TaskPatterns) {
    AverageExceedsDays(p.completedDurationMs, p.completedCount, 7)
  }

  predicate WebProject(lowerName: string) {
    Contains(lowerName, "website") || Contains(lowerName, "web")
  }

  predicate BackendProject(lowerName: string) {
    Contains(lowerName, "api") || Contains(lowerName, "backend")
  }

  /** The five tests of the service, evaluated. */
  datatype Signals = Signals(incomplete: bool, highPriority: bool, slow: bool, web: bool, backend: bool)

  function SignalsOf(p: TaskPatterns, lowerName: string): Signals {
    Signals(p.hasIncompleteTasks, p.hasHighPriorityTasks, SlowCompletion(p), WebProject(lowerName), BackendProject(lowerName))
  }

  /** What one `if (test) recommendations.push(...)` adds. */
  function PushedIf(test: bool, rule: Rule): seq<Rule> {
    if test then [rule] else []
  }

  /** The rules that fire, pushed in rule order: a rule is pushed exactly when its test
      holds. */
  function RulesFired(s: Signals): (r: seq<Rule>)
    ensures |r| <= 5
    ensures CompletePending in r <==> s.incomplete
    ensures ReviewHighPriority in r <==> s.highPriority
    ensures BreakDownTasks in r <==> s.slow
    ensures ResponsiveTesting in r <==> s.web
    ensures ApiDocumentation in r <==> s.backend
  {
    var r := PushedIf(s.incomplete, CompletePending) + PushedIf(s.highPriority, ReviewHighPriority)
      + PushedIf(s.slow, BreakDownTasks) + PushedIf(s.web, ResponsiveTesting)
      + PushedIf(s.backend, ApiDocumentation);
    assert forall rule :: rule in r <==>
      || (rule == CompletePending && s.incomplete) || (rule == ReviewHighPriority && s.highPriority)
      || (rule == BreakDownTasks && s.slow) || (rule == ResponsiveTesting && s.web)
      || (rule == ApiDocumentation && s.backend);
    r
  }

  function RankKey(rule: Rule): int { Rank(rule) }

  /** A push of a rule ranked after everything already pushed keeps the list in rule
      order. */
  lemma PushKeepsOrder(r: seq<Rule>, test: bool, rule: Rule)
    requires IncreasingBy(r, RankKey)
    requires forall x :: x in r ==> Rank(x) < Rank(rule)
    ensures IncreasingBy(r + PushedIf(test, rule), RankKey)
    ensures forall x :: x in r + PushedIf(test, rule) ==> Rank(x) <= Rank(rule)
  {
    if test {
      AppendKeepsIncreasing(r, rule, RankKey);
    } else {
      assert r + PushedIf(test, rule) == r;
    }
  }

  /** The fired rules come in the order the service tries them. */
  lemma RulesFiredInOrder(s: Signals)
    ensures IncreasingBy(RulesFired(s), RankKey)
  {
    var r0: seq<Rule> := [];
    PushKeepsOrder(r0, s.incomplete, CompletePending);
    var r1 := r0 + PushedIf(s.incomplete, CompletePending);
    PushKeepsOrder(r1, s.highPriority, ReviewHighPriority);
    var r2 := r1 + PushedIf(s.highPriority, ReviewHighPriority);
    PushKeepsOrder(r2, s.slow, BreakDownTasks);
    var r3 := r2 + PushedIf(s.slow, BreakDownTasks);
    PushKeepsOrder(r3, s.web, ResponsiveTesting);
    var r4 := r3 + PushedIf(s.web, ResponsiveTesting);
    PushKeepsOrder(r4, s.backend, ApiDocumentation);
    assert r1 == PushedIf(s.incomplete, CompletePending);
    assert RulesFired(s) == r4 + PushedIf(s.backend, ApiDocumentation);
  }

  /** Every name containing "website" contains "web", so the rec-4 test is the "web" test. */
  lemma WebProjectIff(lowerName: string)
    ensures WebProject(lowerName) <==> Contains(lowerName, "web")
  {
    if Contains(lowerName, "website") {
      assert OccursAt("website", "web", 0);
      ContainsTransitive(lowerName, "website", "web");
    }
  }

  /** The tasks the recommendations look at: the project's 50 most recently created. */
  function Considered(tasks: seq<TaskRow>, projectId: int): seq<TaskRow> {
    Take(SortBy(Filter(tasks, InProject(projectId)), TaskRoutes.NewerOrSame), 50)
  }

  /** At most 50 tasks of the project, newest first, and no task of the project left out is
      newer than one kept; with 50 or fewer tasks, all of them. */
  lemma ConsideredSpec(tasks: seq<TaskRow>, projectId: int)
    ensures |Considered(tasks, projectId)| <= 50
    ensures forall t :: t in Considered(tasks, projectId) ==> t in tasks && t.projectId == projectId
    ensures SortedBy(Considered(tasks, projectId), TaskRoutes.NewerOrSame)
    ensures forall t, u :: (t in tasks && t.projectId == projectId && t !in Considered(tasks, projectId)
      && u in Considered(tasks, projectId)) ==> u.createdAt >= t.createdAt
    ensures Count(tasks, InProject(projectId)) <= 50 ==>
      multiset(Considered(tasks, projectId)) == multiset(Filter(tasks, InProject(projectId)))
  {
    var f := Filter(tasks, InProject(projectId));
    var sorted := SortBy(f, TaskRoutes.NewerOrSame);
    var r := Considered(tasks, projectId);
    TaskRoutes.NewerOrSameIsTotal();
    SortBySorted(f, TaskRoutes.NewerOrSame);
    forall t | t in r ensures t in tasks && t.projectId == projectId {
      var i :| 0 <= i < |r| && r[i] == t;
      assert sorted[i] in multiset(sorted);
    }
    forall t, u | t in tasks && t.projectId == projectId && t !in r && u in r ensures u.createdAt >= t.createdAt {
      assert t in multiset(f);
      assert t in sorted;
      TakeSortedBound(sorted, TaskRoutes.NewerOrSame, 50, t);
    }
  }

  /** The rules that fire for a project and a user: none for a missing project or user;
      otherwise the tests over the considered tasks and the lower-cased project name. */
  function FiredRules(db: Db, projectId: int, userId: int): (r: seq<Rule>)
    ensures FindProject(db.projects, projectId).None? || FindUser(db.users, userId).None? ==> r == []
    ensures |r| <= 5
    ensures forall i, j :: 0 <= i < j < |r| ==> Rank(r[i]) < Rank(r[j])
  {
    match FindProject(db.projects, projectId)
    case None => []
    case Some(project) =>
      if FindUser(db.users, userId).None? then []
      else
        var s := SignalsOf(AnalyzeTaskPatterns(Considered(db.tasks, projectId)), ToLower(project.name));
        RulesFiredInOrder(s);
        RulesFired(s)
  }

  /** For an existing project and user, each rule fires exactly when its test holds: an
      unfinished considered task, an urgent considered task, a week-long average completion,
      "web" in the name, "api" or "backend" in the name. */
  lemma RecommendationRules(db: Db, projectId: int, userId: int)
    requires FindProject(db.projects, projectId).Some? && FindUser(db.users, userId).Some?
    ensures
      var r := FiredRules(db, projectId, userId);
      var considered := Considered(db.tasks, projectId);
      var name := ToLower(FindProject(db.projects, projectId).value.name);
      && (CompletePending in r <==> exists t :: t in considered && t.status != Done)
      && (ReviewHighPriority in r <==> exists t :: t in considered && t.priority == Urgent)
      && (BreakDownTasks in r <==>
            AverageExceedsDays(DurationSum(Filter(considered, IsDone())), Count(considered, IsDone()), 7))
      && (ResponsiveTesting in r <==> Contains(name, "web"))
      && (ApiDocumentation in r <==> Contains(name, "api") || Contains(name, "backend"))
  {
    var name := ToLower(FindProject(db.projects, projectId).value.name);
    var p := AnalyzeTaskPatterns(Considered(db.tasks, projectId));
    assert FiredRules(db, projectId, userId) == RulesFired(SignalsOf(p, name));
    WebProjectIff(name);
  }

  function DetailsOf(rules: seq<Rule>): (r: seq<Recommendation>)
    ensures |r| == |rules| && forall i :: 0 <= i < |rules| ==> r[i] == Details(rules[i])
  {
    seq(|rules|, i requires 0 <= i < |rules| => Details(rules[i]))
  }

  /** `generateTaskRecommendations`: the recommendations of the fired rules, in rule order,
      `slice(0, 5)` keeping all of them. */
  function GenerateTaskRecommendations(db: Db, projectId: int, userId: int): (r: seq<Recommendation>)
    ensures |r| == |FiredRules(db, projectId, userId)| <= 5
    ensures forall i :: 0 <= i < |r| ==> r[i] == Details(FiredRules(db, projectId, userId)[i])
  {
    var rules := FiredRules(db, projectId, userId);
    Take(DetailsOf(rules), 5)
  }

  /** A project's completion summary. The rounded `completionRate` and
      `averageTaskDuration` figures are not part of this model. */
  datatype ProjectInsight = ProjectInsight(
    projectId: int, projectName: string, totalTasks: nat, completedTasks: nat,
    recommendedNextSteps: seq<string>)

  const FocusOnCompleting := "Focus on completing existing tasks before adding new ones"
  const BreakDownLarger := "Consider breaking down larger tasks into smaller pieces"
  const ReviewUrgent := "Review and prioritize urgent tasks"
  const ProgressingWell := "Project is progressing well - continue current approach"

  /** A completion rate under 50%; with no tasks the rate is 0. */
  predicate CompletionBelowHalf(total: nat, completed: nat) {
    total == 0 || 2 * completed < total
  }

  /** The next steps: one per threshold that is crossed, in order, or the "progressing well"
      step when none is. */
  function NextSteps(total: nat, completed: nat, durationSumMs: int, urgent: nat): (steps: seq<string>)
    ensures steps != []
    ensures FocusOnCompleting in steps <==> CompletionBelowHalf(total, completed)
    ensures BreakDownLarger in steps <==> AverageExceedsDays(durationSumMs, total, 7)
    ensures ReviewUrgent in steps <==> urgent > 3
    ensures ProgressingWell in steps <==>
      !CompletionBelowHalf(total, completed) && !AverageExceedsDays(durationSumMs, total, 7) && urgent <= 3
    ensures CompletionBelowHalf(total, completed) ==> steps[0] == FocusOnCompleting
  {
    var steps := (if CompletionBelowHalf(total, completed) then [FocusOnCompleting] else [])
      + (if AverageExceedsDays(durationSumMs, total, 7) then [BreakDownLarger] else [])
      + (if urgent > 3 then [ReviewUrgent] else []);
    if steps == [] then [ProgressingWell] else steps
  }

  /** `generateProjectInsights`: `null` for a missing project; otherwise the project's name
      and counts over all of its tasks, with the next steps their thresholds call for. */
  function GenerateProjectInsights(db: Db, projectId: int): (r: Option<ProjectInsight>)
    ensures r.None? <==> FindProject(db.projects, projectId).None?
    ensures r.Some? ==>
      && r.value.projectId == projectId
      && r.value.projectName == FindProject(db.projects, projectId).value.name
      && r.value.totalTasks == Count(db.tasks, InProject(projectId))
      && r.value.completedTasks == Count(Filter(db.tasks, InProject(projectId)), IsDone())
      && r.value.completedTasks <= r.value.totalTasks
      && r.value.recommendedNextSteps != []
      && (r.value.totalTasks == 0 ==> r.value.recommendedNextSteps[0] == FocusOnCompleting)
    ensures r.Some? ==>
      var tasks := Filter(db.tasks, InProject(projectId));
      r.value.recommendedNextSteps
        == NextSteps(|tasks|, r.value.completedTasks, DurationSum(tasks), Count(tasks, IsUrgent()))
  {
    match FindProject(db.projects, projectId)
    case None => None
    case Some(project) =>
      var tasks := Filter(db.tasks, InProject(projectId));
      var completed := Count(tasks, IsDone());
      var steps := NextSteps(|tasks|, completed, DurationSum(tasks), Count(tasks, IsUrgent()));
      Some(ProjectInsight(project.id, project.name, |tasks|, completed, steps))
  }

  /** A project with no tasks is told to focus on completing tasks, and only that. */
  lemma EmptyProjectInsight(db: Db, projectId: int)
    requires FindProject(db.projects, projectId).Some?
    requires forall t :: t in db.tasks ==> t.projectId != projectId
    ensures GenerateProjectInsights(db, projectId).Some?
    ensures GenerateProjectInsights(db, projectId).value.recommendedNextSteps == [FocusOnCompleting]
  {
    assert Count(db.tasks, InProject(projectId)) == 0;
  }

  /** A user and the number of unfinished tasks assigned to them. */
  datatype Workload = Workload(user: UserRow, workload: nat)

  function OpenFor(uid: int): TaskRow -> bool {
    (t: TaskRow) => t.assigneeId == Some(uid) && t.status != Done
  }

  function Workloads(db: Db): (w: seq<Workload>)
    ensures |w| == |db.users|
    ensures forall i :: 0 <= i < |w| ==> w[i] == Workload(db.users[i], OpenCount(db, db.users[i]))
  {
    seq(|db.users|, i requires 0 <= i < |db.users| => Workload(db.users[i], OpenCount(db, db.users[i])))
  }

  /** The number of unfinished tasks assigned to a user. */
  function OpenCount(db: Db, u: UserRow): nat {
    Count(db.tasks, OpenFor(u.id))
  }

  function LighterOrSame(a: Workload, b: Workload): bool {
    a.workload <= b.workload
  }

  /** The users ordered by workload, lightest first; equal workloads keep table order. */
  function RankedByWorkload(db: Db): seq<Workload> {
    SortBy(Workloads(db), LighterOrSame)
  }

  function Users(w: seq<Workload>): (r: seq<UserRow>)
    ensures |r| == |w| && forall i :: 0 <= i < |w| ==> r[i] == w[i].user
  {
    seq(|w|, i requires 0 <= i < |w| => w[i].user)
  }

  /** `suggestTaskAssignment` as written: `null` for a missing task, otherwise the first
      three users by workload, as whole rows, password hash included. */
  function SuggestTaskAssignmentAsWritten(db: Db, taskId: int): (r: Option<seq<UserRow>>)
    ensures r.None? <==> FindTask(db.tasks, taskId).None?
    ensures r.Some? ==> |r.value| == if |db.users| < 3 then |db.users| else 3
  {
    if FindTask(db.tasks, taskId).None? then None
    else
      assert |multiset(RankedByWorkload(db))| == |multiset(Workloads(db))|;
      Some(Users(Take(RankedByWorkload(db), 3)))
  }

  /** Each suggested row is a stored user; the suggestions are in ascending workload, and no
      user left out has a lighter workload than one suggested. */
  lemma SuggestionsAreLightest(db: Db, taskId: int)
    requires FindTask(db.tasks, taskId).Some?
    ensures
      var r := SuggestTaskAssignmentAsWritten(db, taskId).value;
      && (forall u :: u in r ==> u in db.users)
      && (forall i, j :: 0 <= i < j < |r| ==> OpenCount(db, r[i]) <= OpenCount(db, r[j]))
      && (forall u, v :: u in db.users && u !in r && v in r ==> OpenCount(db, v) <= OpenCount(db, u))
  {
    var ranked := RankedByWorkload(db);
    var kept := Take(ranked, 3);
    var r := SuggestTaskAssignmentAsWritten(db, taskId).value;
    assert r == Users(kept);
    RankedSpec(db);
    forall u | u in r ensures u in db.users {
      var i :| 0 <= i < |r| && r[i] == u;
      assert kept[i] == ranked[i] && ranked[i] in ranked;
    }
    forall i, j | 0 <= i < j < |r| ensures OpenCount(db, r[i]) <= OpenCount(db, r[j]) {
      assert kept[i] == ranked[i] && kept[j] == ranked[j];
      assert ranked[i] in ranked && ranked[j] in ranked;
    }
    forall u, v | u in db.users && u !in r && v in r ensures OpenCount(db, v) <= OpenCount(db, u) {
      LeftOutIsHeavier(db, ranked, u, v);
    }
  }

  /** The ranking holds each user once with their open count, sorted lightest first. */
  lemma RankedSpec(db: Db)
    ensures SortedBy(RankedByWorkload(db), LighterOrSame)
    ensures forall x :: x in RankedByWorkload(db) ==> x.user in db.users && x.workload == OpenCount(db, x.user)
    ensures forall u :: u in db.users ==> Workload(u, OpenCount(db, u)) in RankedByWorkload(db)
  {
    var w := Workloads(db);
    var ranked := RankedByWorkload(db);
    SortBySorted(w, LighterOrSame);
    forall x | x in ranked ensures x.user in db.users && x.workload == OpenCount(db, x.user) {
      assert x in multiset(ranked);
      assert x in w;
      var k :| 0 <= k < |w| && w[k] == x;
      assert db.users[k] in db.users;
    }
    forall u | u in db.users ensures Workload(u, OpenCount(db, u)) in ranked {
      var k :| 0 <= k < |db.users| && db.users[k] == u;
      assert w[k] in w;
      assert w[k] in multiset(w);
    }
  }

  /** A user the first three leave out carries at least the load of each of them. */
  lemma LeftOutIsHeavier(db: Db, ranked: seq<Workload>, u: UserRow, v: UserRow)
    requires ranked == RankedByWorkload(db)
    requires SortedBy(ranked, LighterOrSame)
    requires forall x :: x in ranked ==> x.user in db.users && x.workload == OpenCount(db, x.user)
    requires forall u :: u in db.users ==> Workload(u, OpenCount(db, u)) in ranked
    requires u in db.users && u !in Users(Take(ranked, 3)) && v in Users(Take(ranked, 3))
    ensures OpenCount(db, v) <= OpenCount(db, u)
  {
    var kept := Take(ranked, 3);
    var r := Users(kept);
    var x := Workload(u, OpenCount(db, u));
    assert x !in kept by {
      forall i | 0 <= i < |kept| ensures kept[i] != x {
        assert r[i] in r;
      }
    }
    TakeSortedBound(ranked, LighterOrSame, 3, x);
    var i :| 0 <= i < |r| && r[i] == v;
    assert kept[i] in kept;
    assert kept[i] == ranked[i] && ranked[i] in ranked;
  }

  /** Whenever there is a user to suggest, a whole stored row, password hash included, is
      among the suggestions the endpoint sends back. */
  lemma SuggestionsExposePasswordHash(db: Db, taskId: int)
    requires FindTask(db.tasks, taskId).Some? && db.users != []
    ensures
      var r := SuggestTaskAssignmentAsWritten(db, taskId).value;
      r != [] && r[0] in db.users && exists u :: u in db.users && r[0].password == u.password
  {
    SuggestionsAreLightest(db, taskId);
    var r := SuggestTaskAssignmentAsWritten(db, taskId).value;
    assert r[0] in r;
  }

  /** The suggestions as the other user endpoints return users: without the password column,
      same users in the same order. */
  function SuggestTaskAssignment(db: Db, taskId: int): (r: Option<seq<PublicUser>>)
    ensures r.None? <==> SuggestTaskAssignmentAsWritten(db, taskId).None?
    ensures r.Some? ==>
      var rows := SuggestTaskAssignmentAsWritten(db, taskId).value;
      |r.value| == |rows| && forall i :: 0 <= i < |rows| ==> r.value[i] == PublicOf(rows[i])
  {
    match SuggestTaskAssignmentAsWritten(db, taskId)
    case None => None
    case Some(rows) => Some(seq(|rows|, i requires 0 <= i < |rows| => PublicOf(rows[i])))
  }
}
