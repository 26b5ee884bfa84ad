/** The create/edit task form: its field values, the per-field error
    messages, validation on submit, and field edits that clear the edited
    field's error. */
module Form {
  import opened Types
  import opened Text

  datatype Field = Title | Description | Status | Priority | IsCompleted | IsUrgent

  const TitleRequired: string := "Title is required"
  const TitleTooShort: string := "Title must be at least 3 characters"
  const DescriptionRequired: string := "Description is required"
  const DescriptionTooShort: string := "Description must be at least 10 characters"

  const MinTitleLength: nat := 3
  const MinDescriptionLength: nat := 10

  /** The title's error, if any: "required" when it is blank, "too short"
      when its trimmed `length` (in UTF-16 code units) is 1 or 2. */
  function TitleError(title: string): (e: Option<string>)
    ensures e.None? <==> Utf16Length(Trim(title)) >= MinTitleLength
    ensures e == Some(TitleRequired) <==> AllSpace(title)
    ensures e == Some(TitleTooShort) <==> !AllSpace(title) && Utf16Length(Trim(title)) < MinTitleLength
  {
    if Trim(title) == [] then Some(TitleRequired)
    else if Utf16Length(Trim(title)) < MinTitleLength then Some(TitleTooShort)
    else None
  }

  /** The description's error, if any: "required" when it is blank, "too
      short" when its trimmed `length` (in UTF-16 code units) is 1 to 9. */
  function DescriptionError(description: string): (e: Option<string>)
    ensures e.None? <==> Utf16Length(Trim(description)) >= MinDescriptionLength
    ensures e == Some(DescriptionRequired) <==> AllSpace(description)
    ensures e == Some(DescriptionTooShort) <==>
      !AllSpace(description) && Utf16Length(Trim(description)) < MinDescriptionLength
  {
    if Trim(description) == [] then Some(DescriptionRequired)
    else if Utf16Length(Trim(description)) < MinDescriptionLength then Some(DescriptionTooShort)
    else None
  }

  /** The error map `validateForm` builds: an entry for the title and one for
      the description, each only when that field fails. */
  function Validate(d: TaskData): (errors: map<Field, string>)
    ensures errors.Keys <= {Title, Description}
    ensures Title in errors <==> Utf16Length(Trim(d.title)) < MinTitleLength
    ensures Description in errors <==> Utf16Length(Trim(d.description)) < MinDescriptionLength
    ensures Title in errors ==> Some(errors[Title]) == TitleError(d.title)
    ensures Description in errors ==> Some(errors[Description]) == DescriptionError(d.description)
  {
    var withTitle: map<Field, string> :=
      match TitleError(d.title)
      case None => map[]
      case Some(msg) => map[Title := msg];
    match DescriptionError(d.description)
    case None => withTitle
    case Some(msg) => withTitle[Description := msg]
  }

  /** `validateForm()`: true exactly when no error was recorded, that is when
      the trimmed title is at least 3 and the trimmed description at least 10
      UTF-16 code units long. */
  function ValidateForm(d: TaskData): (ok: bool)
    ensures ok <==>
      Utf16Length(Trim(d.title)) >= MinTitleLength &&
      Utf16Length(Trim(d.description)) >= MinDescriptionLength
  {
    var errors := Validate(d);
    assert Title in errors ==> |errors| > 0;
    assert Description in errors ==> |errors| > 0;
    assert errors == map[] ==> Utf16Length(Trim(d.title)) >= MinTitleLength;
    |errors| == 0
  }

  /** `length` counts a character outside the Basic Multilingual Plane (an
      emoji, say) twice: such a character followed by one letter is two
      characters but a long enough title. */
  lemma AstralTitleAccepted(astral: char, other: char)
    requires astral as int > 0xFFFF && !IsSpace(astral) && !IsSpace(other)
    ensures |Trim([astral, other])| < MinTitleLength
    ensures TitleError([astral, other]).None?
  {
    var title := [astral, other];
    assert Trim(title) == title by {
      TrimFixpoint(title);
    }
    assert Utf16Length(title) >= 3 by {
      assert title[1..] == [other];
    }
  }

  /** The title's error depends on the title alone and the description's on
      the description alone. */
  lemma ErrorsIndependent(d: TaskData, e: TaskData)
    ensures d.title == e.title ==>
      (Title in Validate(d) <==> Title in Validate(e)) &&
      (Title in Validate(d) ==> Validate(d)[Title] == Validate(e)[Title])
    ensures d.description == e.description ==>
      (Description in Validate(d) <==> Description in Validate(e)) &&
      (Description in Validate(d) ==> Validate(d)[Description] == Validate(e)[Description])
  {
  }

  /** What a field holds. */
  datatype FieldValue = TextValue(text: string) | StatusChoice(status: TaskStatus)
                      | PriorityChoice(priority: TaskPriority) | Checked(checked: bool)

  function Get(d: TaskData, f: Field): FieldValue {
    match f
    case Title => TextValue(d.title)
    case Description => TextValue(d.description)
    case Status => StatusChoice(d.status)
    case Priority => PriorityChoice(d.priority)
    case IsCompleted => Checked(d.isCompleted)
    case IsUrgent => Checked(d.isUrgent)
  }

  /** Form data is determined by what its fields hold. */
  lemma GetDetermines(a: TaskData, b: TaskData)
    requires forall f :: Get(a, f) == Get(b, f)
    ensures a == b
  {
    assert Get(a, Title) == Get(b, Title) && Get(a, Description) == Get(b, Description);
    assert Get(a, Status) == Get(b, Status) && Get(a, Priority) == Get(b, Priority);
    assert Get(a, IsCompleted) == Get(b, IsCompleted) && Get(a, IsUrgent) == Get(b, IsUrgent);
  }

  /** A change event: the text inputs and selects deliver their value, the
      two checkboxes their checked state. */
  datatype Edit =
    | TypeTitle(title: string)
    | TypeDescription(description: string)
    | SelectStatus(status: TaskStatus)
    | SelectPriority(priority: TaskPriority)
    | ToggleCompleted(checked: bool)
    | ToggleUrgent(checked: bool)

  /** The `name` of the input that fired the event. */
  function FieldOf(e: Edit): Field {
    match e
    case TypeTitle(_) => Title
    case TypeDescription(_) => Description
    case SelectStatus(_) => Status
    case SelectPriority(_) => Priority
    case ToggleCompleted(_) => IsCompleted
    case ToggleUrgent(_) => IsUrgent
  }

  /** The value the event carries: `checked` for a checkbox, `value` otherwise. */
  function ValueOf(e: Edit): FieldValue {
    match e
    case TypeTitle(s) => TextValue(s)
    case TypeDescription(s) => TextValue(s)
    case SelectStatus(s) => StatusChoice(s)
    case SelectPriority(p) => PriorityChoice(p)
    case ToggleCompleted(b) => Checked(b)
    case ToggleUrgent(b) => Checked(b)
  }

  /** `{...prev, [name]: type === 'checkbox' ? checked : value}`: the named
      field takes the event's value and every other field is kept. */
  function ApplyEdit(d: TaskData, e: Edit): (r: TaskData)
    ensures Get(r, FieldOf(e)) == ValueOf(e)
    ensures forall f :: f != FieldOf(e) ==> Get(r, f) == Get(d, f)
  {
    match e
    case TypeTitle(s) => d.(title := s)
    case TypeDescription(s) => d.(description := s)
    case SelectStatus(s) => d.(status := s)
    case SelectPriority(p) => d.(priority := p)
    case ToggleCompleted(b) => d.(isCompleted := b)
    case ToggleUrgent(b) => d.(isUrgent := b)
  }

  /** An edit that sets a field to the value it already holds changes nothing. */
  lemma ApplyEditNoChange(d: TaskData, e: Edit)
    requires Get(d, FieldOf(e)) == ValueOf(e)
    ensures ApplyEdit(d, e) == d
  {
    GetDetermines(ApplyEdit(d, e), d);
  }

  /** The empty form shown for a new task. */
  const BlankForm: TaskData := TaskData("", "", Todo, Medium, false, false)

  /** Blank title and description give exactly the two "required" errors. */
  lemma BothBlankBothRequired(d: TaskData)
    requires AllSpace(d.title) && AllSpace(d.description)
    ensures !ValidateForm(d)
    ensures Validate(d) == map[Title := TitleRequired, Description := DescriptionRequired]
  {
    var v := Validate(d);
    assert v.Keys == {Title, Description};
  }

  /** The form as first shown is rejected with both "required" messages. */
  lemma BlankFormRejected()
    ensures Validate(BlankForm) == map[Title := TitleRequired, Description := DescriptionRequired]
  {
    BothBlankBothRequired(BlankForm);
  }

  /** The form's state: the field values and the error messages on show. */
  class TaskForm {
    var formData: TaskData
    var errors: map<Field, string>

    /** A fresh form, filled from `task` when one is being edited. */
    constructor (task: Option<Task>)
      ensures formData == (if task.Some? then DataOf(task.value) else BlankForm)
      ensures errors == map[]
    {
      formData := if task.Some? then DataOf(task.value) else BlankForm;
      errors := map[];
    }

    /** Stores the edited field's new value and clears that field's error only. */
    method HandleChange(e: Edit)
      modifies this
      ensures formData == ApplyEdit(old(formData), e)
      ensures errors == old(errors) - {FieldOf(e)}
    {
      formData := ApplyEdit(formData, e);
      if FieldOf(e) in errors {
        errors := errors - {FieldOf(e)};
      }
    }

    /** Validates, shows the errors, and hands the data to `onSubmit` (the
        returned value) only when validation passes. */
    method HandleSubmit() returns (submitted: Option<TaskData>)
      modifies this`errors
      ensures errors == Validate(formData)
      ensures submitted.Some? <==> ValidateForm(formData)
      ensures submitted.Some? ==> submitted.value == formData
    {
      errors := Validate(formData);
      if ValidateForm(formData) {
        submitted := Some(formData);
      } else {
        submitted := None;
      }
    }
  }
}
