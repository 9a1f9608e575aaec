/** The board table: four status columns in a fixed order, each showing the tasks with its
    status, the drop rule that moves a dragged task to another column, and the per-row
    callbacks. */
module TaskTable {
  import opened Wrappers
  import opened Sorting
  import opened Domain
  import opened Models
  import opened ApiClient
  import opened AppState
  import TaskRoutes

  /** A column: the status spelling it holds and its heading. */
  datatype Column = Column(id: string, title: string)

  const StatusColumns: seq<Column> := [
    Column("todo", "To Do"), Column("in-progress", "In Progress"),
    Column("review", "Review"), Column("done", "Done")]

  /** The columns hold the four statuses, in the board's order. */
  lemma ColumnsFollowStatuses()
    ensures |StatusColumns| == |AllStatuses| == 4
    ensures forall i :: 0 <= i < 4 ==> StatusColumns[i].id == StatusName(AllStatuses[i])
  {
  }

  function StatusIs(status: string): TaskView -> bool {
    (v: TaskView) => StatusName(v.task.status) == status
  }

  /** `getTasksByStatus`: the tasks with that status spelling, in the list's order. */
  function TasksByStatus(tasks: seq<TaskView>, status: string): (r: seq<TaskView>)
    ensures forall v :: v in r <==> v in tasks && StatusName(v.task.status) == status
    ensures |r| <= |tasks|
  {
    Filter(tasks, StatusIs(status))
  }

  /** A column keeps the order of the list. */
  lemma TasksByStatusInOrder(tasks: seq<TaskView>, status: string)
    requires IncreasingBy(tasks, TaskKeyOf)
    ensures IncreasingBy(TasksByStatus(tasks, status), TaskKeyOf)
  {
    FilterKeepsIncreasing(tasks, StatusIs(status), TaskKeyOf);
  }

  /** The column counts the headers show. */
  function ColumnCounts(tasks: seq<TaskView>): seq<nat> {
    seq(|StatusColumns|, i requires 0 <= i < |StatusColumns| => |TasksByStatus(tasks, StatusColumns[i].id)|)
  }

  /** A task whose status text is none of the four column ids: no column shows it. */
  function OffTheBoard(): TaskView -> bool {
    (v: TaskView) => v.task.status.OtherStatus?
  }

  /** Every task with one of the four statuses sits in exactly one column, and a task with
      any other status text sits in none, so the four counts and the tasks off the board add
      up to the list. */
  lemma {:induction false} ColumnCountsSum(tasks: seq<TaskView>)
    ensures
      var c := ColumnCounts(tasks);
      c[0] + c[1] + c[2] + c[3] + Count(tasks, OffTheBoard()) == |tasks|
  {
    if tasks != [] {
      ColumnCountsSum(tasks[1..]);
      var v := tasks[0];
      assert tasks == [v] + tasks[1..];
      match v.task.status
      case Todo =>
      case InProgress =>
      case Review =>
      case Done =>
      case OtherStatus(_) =>
    }
  }

  /** What the drag source hands the drop handler. */
  datatype DragItem = DragItem(id: int, sourceStatus: string)

  /** `handleDrop(status)(item)`: the update call a drop makes, if any. */
  function HandleDrop(target: TaskStatus, item: DragItem): (call: Option<(int, TaskPayload)>)
    ensures call.Some? <==> item.sourceStatus != StatusName(target)
    ensures call.Some? ==> call.value.0 == item.id
    ensures call.Some? ==> call.value.1 == NoTaskFields.(status := Some(target))
  {
    if item.sourceStatus != StatusName(target) then Some((item.id, NoTaskFields.(status := Some(target))))
    else None
  }

  /** On the server, a drop moves the task to the target column and changes nothing else
      but the due date, which it clears, since the update handler nulls a due date that is
      not sent. The timestamp moves whenever the status or the due date changed. */
  lemma DropMovesTask(t: TaskRow, target: TaskStatus, now: int)
    ensures
      var b := TaskBodyOf(NoTaskFields.(status := Some(target)));
      var stamp := if t.status == target && t.dueDate.None? then t.updatedAt else now;
      UpdateTask(t, TaskRoutes.UpdateChanges(b), now) == Some(t.(status := target, dueDate := None, updatedAt := stamp))
  {
    var b := TaskBodyOf(NoTaskFields.(status := Some(target)));
    var r := UpdateTask(t, TaskRoutes.UpdateChanges(b), now);
    assert ParseStatus(StatusName(target)) == target;
    assert r.Some?;
  }

  /** The id the row callbacks of the row showing `v` pass on: both its update and its
      delete target that task. */
  function RowTarget(v: TaskView): (id: int)
    ensures id == TaskKeyOf(v)
  {
    v.task.id
  }

  /** The delete button of a row, once the server answers, takes that row off the board. */
  lemma RowDeleteRemovesRow(tasks: seq<TaskView>, v: TaskView)
    ensures v !in WithoutKey(tasks, RowTarget(v), TaskKeyOf)
    ensures forall w :: w in tasks && w.task.id != v.task.id ==> w in WithoutKey(tasks, RowTarget(v), TaskKeyOf)
  {
  }
}
