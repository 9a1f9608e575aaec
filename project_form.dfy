/** The project form: filled from the project being edited or reset for a new one, checked
    before it is sent, and sent as it stands. */
module ProjectForm {
  import opened Wrappers
  import opened Strings
  import opened Models
  import opened Http
  import opened ApiClient
  import opened Forms

  datatype ProjectFormData = ProjectFormData(name: string, description: string, ownerId: int)

  /** The project handed in for editing, any of whose fields may be missing. */
  datatype ProjectDraft = ProjectDraft(name: Option<string>, description: Option<string>, ownerId: Option<int>)

  /** The fields a new project starts with: the first user preselected as owner, if any. */
  function NewProjectForm(users: seq<PublicUser>): ProjectFormData {
    ProjectFormData("", "", if |users| > 0 then users[0].id else 0)
  }

  /** The fields of the project being edited, with `||` fallbacks. */
  function EditedProjectForm(p: ProjectDraft): ProjectFormData {
    ProjectFormData(p.name.GetOr(""), p.description.GetOr(""), p.ownerId.GetOr(0))
  }

  function InitialProjectForm(initial: Option<ProjectDraft>, mode: Mode, users: seq<PublicUser>): ProjectFormData {
    if initial.Some? && mode == Edit then EditedProjectForm(initial.value) else NewProjectForm(users)
  }

  /** `validateForm`'s error map: a blank name and a falsy owner each get their text. */
  function ProjectValidationErrors(d: ProjectFormData): (errors: map<string, string>)
    ensures "name" in errors <==> Blank(d.name)
    ensures "ownerId" in errors <==> d.ownerId == 0
    ensures "name" in errors ==> errors["name"] == "Project name is required"
    ensures "ownerId" in errors ==> errors["ownerId"] == "Owner is required"
    ensures errors.Keys <= {"name", "ownerId"}
    ensures errors == map[] <==> ProjectFormValid(d)
  {
    TrimEmptyIff(d.name);
    var withName: map<string, string> := if Trim(d.name) == "" then map["name" := "Project name is required"] else map[];
    if d.ownerId == 0 then withName["ownerId" := "Owner is required"] else withName
  }

  /** The form passes validation: a name that is not blank and an owner chosen. */
  predicate ProjectFormValid(d: ProjectFormData) {
    !Blank(d.name) && d.ownerId != 0
  }

  /** A new project's form never passes as it starts: its name is empty. */
  lemma NewProjectFormNeedsName(users: seq<PublicUser>)
    ensures "name" in ProjectValidationErrors(NewProjectForm(users))
    ensures "ownerId" in ProjectValidationErrors(NewProjectForm(users)) <==> |users| == 0 || users[0].id == 0
  {
  }

  /** The form of a stored project passes validation when its name is not blank and its
      owner is a real one. */
  lemma EditedStoredProjectValidates(p: ProjectRow)
    requires !Blank(p.name) && p.ownerId != 0
    ensures ProjectValidationErrors(EditedProjectForm(ProjectDraft(Some(p.name), p.description, Some(p.ownerId)))) == map[]
  {
  }

  /** The form data as `onSubmit` receives it: all three fields. */
  function ProjectSubmitData(d: ProjectFormData): ProjectPayload {
    ProjectPayload(Some(d.name), Some(d.description), Some(d.ownerId))
  }

  /** What a valid form sends passes the create handler's required-field check. */
  lemma ValidProjectSubmitPassesRequiredCheck(d: ProjectFormData)
    requires ProjectFormValid(d)
    ensures
      var b := ProjectBodyOf(ProjectSubmitData(d));
      TruthyText(b.name) && TruthyNumber(b.ownerId) && b.description == Present(d.description)
  {
    assert Blank("");
  }

  /** One edit of the form. */
  datatype ProjectInput =
    | NameInput(name: string)
    | DescriptionInput(description: string)
    | OwnerInput(ownerId: int)

  function InputField(input: ProjectInput): string {
    match input
    case NameInput(_) => "name"
    case DescriptionInput(_) => "description"
    case OwnerInput(_) => "ownerId"
  }

  /** `{ ...prev, [field]: value }`. */
  function WithInput(d: ProjectFormData, input: ProjectInput): ProjectFormData {
    match input
    case NameInput(v) => d.(name := v)
    case DescriptionInput(v) => d.(description := v)
    case OwnerInput(v) => d.(ownerId := v)
  }

  /** An edit leaves the validation of the other fields where it was. */
  lemma InputKeepsOtherCheck(d: ProjectFormData, input: ProjectInput)
    ensures InputField(input) != "name" ==>
      ("name" in ProjectValidationErrors(WithInput(d, input)) <==> "name" in ProjectValidationErrors(d))
    ensures InputField(input) != "ownerId" ==>
      ("ownerId" in ProjectValidationErrors(WithInput(d, input)) <==> "ownerId" in ProjectValidationErrors(d))
  {
  }

  /** The component's state and what it has called back. */
  class ProjectFormState {
    var formData: ProjectFormData
    var errors: map<string, string>
    /** The payloads handed to `onSubmit`, oldest first. */
    var submitted: seq<ProjectPayload>
    /** How often `onClose` was called. */
    var closeCount: nat

    constructor ()
      ensures formData == ProjectFormData("", "", 0) && errors == map[]
      ensures submitted == [] && closeCount == 0
    {
      formData := ProjectFormData("", "", 0);
      errors := map[];
      submitted := [];
      closeCount := 0;
    }

    /** The initialisation effect: fill the fields and clear the errors. */
    method Initialise(initial: Option<ProjectDraft>, mode: Mode, users: seq<PublicUser>)
      modifies this
      ensures formData == InitialProjectForm(initial, mode, users) && errors == map[]
      ensures submitted == old(submitted) && closeCount == old(closeCount)
    {
      if initial.Some? && mode == Edit {
        formData := EditedProjectForm(initial.value);
      } else {
        formData := NewProjectForm(users);
      }
      errors := map[];
    }

    /** `validateForm`: replace the errors and report whether there are none. */
    method ValidateForm() returns (ok: bool)
      modifies this
      ensures errors == ProjectValidationErrors(formData)
      ensures ok <==> ProjectFormValid(formData)
      ensures formData == old(formData) && submitted == old(submitted) && closeCount == old(closeCount)
    {
      var newErrors := ProjectValidationErrors(formData);
      errors := newErrors;
      ok := |newErrors| == 0;
    }

    /** `handleSubmit`: validate, and only when the form is valid send the data unchanged
        and close. */
    method HandleSubmit()
      modifies this
      ensures errors == ProjectValidationErrors(formData) && formData == old(formData)
      ensures !ProjectFormValid(formData) ==> submitted == old(submitted) && closeCount == old(closeCount)
      ensures ProjectFormValid(formData) ==>
        submitted == old(submitted) + [ProjectSubmitData(formData)] && closeCount == old(closeCount) + 1
    {
      var ok := ValidateForm();
      if !ok {
        return;
      }
      submitted := submitted + [ProjectSubmitData(formData)];
      closeCount := closeCount + 1;
    }

    /** `handleInputChange`: set the field and clear its error if one is shown. */
    method HandleInputChange(input: ProjectInput)
      modifies this
      ensures formData == WithInput(old(formData), input)
      ensures errors == ClearedError(old(errors), InputField(input))
      ensures !ErrorShown(errors, InputField(input))
      ensures submitted == old(submitted) && closeCount == old(closeCount)
    {
      formData := WithInput(formData, input);
      if ErrorShown(errors, InputField(input)) {
        errors := errors[InputField(input) := ""];
      }
    }
  }
}
