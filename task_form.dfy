/** The task form: filled from the task being edited or reset for a new one, checked
    before it is sent, and normalised on the way out: an unset assignee and an empty due
    date are left out of the request. */
module TaskForm {
  import opened Wrappers
  import opened Strings
  import opened Domain
  import opened Models
  import opened Http
  import opened ApiClient
  import opened Forms

  /** The form's fields. The assignee select yields 0 for "Unassigned". */
  datatype TaskFormData = TaskFormData(
    title: string, description: string, priority: Priority, projectId: int,
    assigneeId: Option<int>, dueDate: string)

  /** The task handed in for editing, any of whose fields may be missing. */
  datatype TaskDraft = TaskDraft(
    title: Option<string>, description: Option<string>, priority: Option<Priority>,
    projectId: Option<int>, assigneeId: Option<int>, dueDate: Option<string>)

  /** The fields a new task starts with: the first project preselected, if there is one. */
  function NewTaskForm(projects: seq<ProjectRow>): TaskFormData {
    TaskFormData("", "", Normal, if |projects| > 0 then projects[0].id else 0, None, "")
  }

  /** The fields of the task being edited, with `||` fallbacks; a due date goes through
      `isoDay`, the day part of its ISO form. */
  function EditedTaskForm(t: TaskDraft, isoDay: string -> string): TaskFormData {
    TaskFormData(t.title.GetOr(""), t.description.GetOr(""), t.priority.GetOr(Normal), t.projectId.GetOr(0),
                 t.assigneeId, if Given(t.dueDate) then isoDay(t.dueDate.value) else "")
  }

  /** The initialisation effect: the edited task in edit mode when one is given, otherwise
      the fields of a new task. */
  function InitialTaskForm(initial: Option<TaskDraft>, mode: Mode, projects: seq<ProjectRow>, isoDay: string -> string): TaskFormData {
    if initial.Some? && mode == Edit then EditedTaskForm(initial.value, isoDay) else NewTaskForm(projects)
  }

  /** `validateForm`'s error map: a blank title and a falsy project each get their text. */
  function TaskValidationErrors(d: TaskFormData): (errors: map<string, string>)
    ensures "title" in errors <==> Blank(d.title)
    ensures "projectId" in errors <==> d.projectId == 0
    ensures "title" in errors ==> errors["title"] == "Title is required"
    ensures "projectId" in errors ==> errors["projectId"] == "Project is required"
    ensures errors.Keys <= {"title", "projectId"}
    ensures errors == map[] <==> !Blank(d.title) && d.projectId != 0
  {
    TrimEmptyIff(d.title);
    var withTitle: map<string, string> := if Trim(d.title) == "" then map["title" := "Title is required"] else map[];
    if d.projectId == 0 then withTitle["projectId" := "Project is required"] else withTitle
  }

  /** The form passes validation: a title that is not blank and a project chosen. */
  predicate TaskFormValid(d: TaskFormData) {
    !Blank(d.title) && d.projectId != 0
  }

  /** A new task's form never passes as it starts: its title is empty. */
  lemma NewTaskFormNeedsTitle(projects: seq<ProjectRow>)
    ensures "title" in TaskValidationErrors(NewTaskForm(projects))
    ensures "projectId" in TaskValidationErrors(NewTaskForm(projects)) <==> |projects| == 0 || projects[0].id == 0
  {
  }

  /** The form of a stored task passes validation when its title is not blank and its
      project is a real one. */
  lemma EditedStoredTaskValidates(t: TaskRow, isoDay: string -> string)
    requires !Blank(t.title) && t.projectId != 0
    ensures
      var draft := TaskDraft(Some(t.title), t.description, Some(t.priority), Some(t.projectId), t.assigneeId, t.dueDate);
      TaskValidationErrors(EditedTaskForm(draft, isoDay)) == map[]
  {
  }

  /** The `submitData` object: the fields as they are, with an assignee of 0 or unset and
      an empty due date left `undefined`. */
  function SubmitData(d: TaskFormData): (p: TaskPayload)
    ensures p.title == Some(d.title) && p.description == Some(d.description)
    ensures p.priority == Some(d.priority) && p.projectId == Some(d.projectId) && p.status.None?
    ensures p.assigneeId.None? <==> d.assigneeId.None? || d.assigneeId.value == 0
    ensures p.assigneeId.Some? ==> p.assigneeId == d.assigneeId
    ensures p.dueDate.None? <==> d.dueDate == ""
    ensures p.dueDate.Some? ==> p.dueDate.value == d.dueDate
  {
    TaskPayload(Some(d.title), Some(d.description), Some(d.priority), None, Some(d.projectId),
                if d.assigneeId.Some? && d.assigneeId.value != 0 then d.assigneeId else None,
                if d.dueDate != "" then Some(d.dueDate) else None)
  }

  /** What a valid form sends passes the create handler's required-field check, and never
      carries an assignee of 0 or an empty due date. */
  lemma ValidSubmitPassesRequiredCheck(d: TaskFormData)
    requires TaskValidationErrors(d) == map[]
    ensures
      var b := TaskBodyOf(SubmitData(d));
      && TruthyText(b.title) && TruthyNumber(b.projectId)
      && b.assigneeId != Present(0) && b.dueDate != Present("")
  {
    assert Blank("");
  }

  /** One edit of the form. */
  datatype TaskInput =
    | TitleInput(title: string)
    | DescriptionInput(description: string)
    | PriorityInput(priority: Priority)
    | ProjectInput(projectId: int)
    | AssigneeInput(assigneeId: int)
    | DueDateInput(dueDate: string)

  /** The key of the field an edit changes. */
  function InputField(input: TaskInput): string {
    match input
    case TitleInput(_) => "title"
    case DescriptionInput(_) => "description"
    case PriorityInput(_) => "priority"
    case ProjectInput(_) => "projectId"
    case AssigneeInput(_) => "assigneeId"
    case DueDateInput(_) => "dueDate"
  }

  /** `{ ...prev, [field]: value }`. */
  function WithInput(d: TaskFormData, input: TaskInput): TaskFormData {
    match input
    case TitleInput(v) => d.(title := v)
    case DescriptionInput(v) => d.(description := v)
    case PriorityInput(v) => d.(priority := v)
    case ProjectInput(v) => d.(projectId := v)
    case AssigneeInput(v) => d.(assigneeId := Some(v))
    case DueDateInput(v) => d.(dueDate := v)
  }

  /** An edit leaves the validation of the other field where it was. */
  lemma InputKeepsOtherCheck(d: TaskFormData, input: TaskInput)
    ensures InputField(input) != "title" ==>
      ("title" in TaskValidationErrors(WithInput(d, input)) <==> "title" in TaskValidationErrors(d))
    ensures InputField(input) != "projectId" ==>
      ("projectId" in TaskValidationErrors(WithInput(d, input)) <==> "projectId" in TaskValidationErrors(d))
  {
  }

  /** The component's state and what it has called back. */
  class TaskFormState {
    var formData: TaskFormData
    var errors: map<string, string>
    /** The payloads handed to `onSubmit`, oldest first. */
    var submitted: seq<TaskPayload>
    /** How often `onClose` was called. */
    var closeCount: nat

    constructor ()
      ensures formData == TaskFormData("", "", Normal, 0, None, "") && errors == map[]
      ensures submitted == [] && closeCount == 0
    {
      formData := TaskFormData("", "", Normal, 0, None, "");
      errors := map[];
      submitted := [];
      closeCount := 0;
    }

    /** The initialisation effect: fill the fields and clear the errors. */
    method Initialise(initial: Option<TaskDraft>, mode: Mode, projects: seq<ProjectRow>, isoDay: string -> string)
      modifies this
      ensures formData == InitialTaskForm(initial, mode, projects, isoDay) && errors == map[]
      ensures submitted == old(submitted) && closeCount == old(closeCount)
    {
      if initial.Some? && mode == Edit {
        formData := EditedTaskForm(initial.value, isoDay);
      } else {
        formData := NewTaskForm(projects);
      }
      errors := map[];
    }

    /** `validateForm`: replace the errors and report whether there are none. */
    method ValidateForm() returns (ok: bool)
      modifies this
      ensures errors == TaskValidationErrors(formData)
      ensures ok <==> TaskFormValid(formData)
      ensures formData == old(formData) && submitted == old(submitted) && closeCount == old(closeCount)
    {
      var newErrors := TaskValidationErrors(formData);
      errors := newErrors;
      ok := |newErrors| == 0;
    }

    /** `handleSubmit`: validate, and only when the form is valid send the normalised data
        and close. */
    method HandleSubmit()
      modifies this
      ensures errors == TaskValidationErrors(formData) && formData == old(formData)
      ensures !TaskFormValid(formData) ==> submitted == old(submitted) && closeCount == old(closeCount)
      ensures TaskFormValid(formData) ==>
        submitted == old(submitted) + [SubmitData(formData)] && closeCount == old(closeCount) + 1
    {
      var ok := ValidateForm();
      if !ok {
        return;
      }
      submitted := submitted + [SubmitData(formData)];
      closeCount := closeCount + 1;
    }

    /** `handleInputChange`: set the field and clear its error if one is shown. */
    method HandleInputChange(input: TaskInput)
      modifies this
      ensures formData == WithInput(old(formData), input)
      ensures errors == ClearedError(old(errors), InputField(input))
      ensures !ErrorShown(errors, InputField(input))
      ensures submitted == old(submitted) && closeCount == old(closeCount)
    {
      formData := WithInput(formData, input);
      if ErrorShown(errors, InputField(input)) {
        errors := errors[InputField(input) := ""];
      }
    }
  }
}
