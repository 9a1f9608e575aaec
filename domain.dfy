/** The task enumerations shared by the server and the client: priority and status,
    with the spellings the API uses on the wire. */
module Domain {
  import opened Wrappers

  /** A spelling of the `priority` column outside the enumeration. On SQLite the ENUM column
      is plain text and Sequelize checks no value against the enumeration, so such a
      spelling is stored as it is sent. */
  type OtherPriorityText = s: string | s != "urgent" && s != "normal" && s != "low" witness ""

  /** A spelling of the `status` column outside the enumeration, stored as sent. */
  type OtherStatusText = s: string | s != "todo" && s != "in-progress" && s != "review" && s != "done" witness ""

  /** The `priority` column: the three spellings of the enumeration, or any other text. */
  datatype Priority = Urgent | Normal | Low | OtherPriority(text: OtherPriorityText)

  /** The `status` column: the four spellings of the enumeration, or any other text. */
  datatype TaskStatus = Todo | InProgress | Review | Done | OtherStatus(text: OtherStatusText)

  function PriorityName(p: Priority): string {
    match p
    case Urgent => "urgent"
    case Normal => "normal"
    case Low => "low"
    case OtherPriority(text) => text
  }

  function StatusName(s: TaskStatus): string {
    match s
    case Todo => "todo"
    case InProgress => "in-progress"
    case Review => "review"
    case Done => "done"
    case OtherStatus(text) => text
  }

  /** The `priority` column as read back: every text is a value, and one of the three
      spellings is that member of the enumeration. */
  function ParsePriority(s: string): (r: Priority)
    ensures PriorityName(r) == s
    ensures forall p :: PriorityName(p) == s ==> r == p
    ensures r.OtherPriority? <==> s != "urgent" && s != "normal" && s != "low"
  {
    if s == "urgent" then Urgent
    else if s == "normal" then Normal
    else if s == "low" then Low
    else OtherPriority(s)
  }

  /** The `status` column as read back: every text is a value, and one of the four
      spellings is that member of the enumeration. */
  function ParseStatus(s: string): (r: TaskStatus)
    ensures StatusName(r) == s
    ensures forall st :: StatusName(st) == s ==> r == st
    ensures r.OtherStatus? <==> s != "todo" && s != "in-progress" && s != "review" && s != "done"
  {
    if s == "todo" then Todo
    else if s == "in-progress" then InProgress
    else if s == "review" then Review
    else if s == "done" then Done
    else OtherStatus(s)
  }

  /** The board's columns, in display order. */
  const AllStatuses: seq<TaskStatus> := [Todo, InProgress, Review, Done]
}
