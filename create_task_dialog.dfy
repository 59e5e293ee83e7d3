/**
 * The create-task dialog's form logic: the form state, field-by-field
 * validation with one message per blank field, the trimmed payload handed to
 * the submit callback, resetting on close, and the category colours. The
 * callbacks are recorded as outcomes: the payloads submitted and the number of
 * close notifications.
 */
module CreateTask {
  import opened Wrappers
  import opened Types
  import Text

  /** The error messages the form shows, one slot per validated field. */
  datatype FormErrors = FormErrors(title: Option<string>, description: Option<string>, labelName: Option<string>)

  const NoErrors := FormErrors(None, None, None)

  const InitialForm := CreateTaskDialogData("", "", Medium, "", Unassigned, "")

  /** A field is blank when it holds nothing but whitespace. */
  predicate Blank(s: string) {
    Text.AllWhitespace(s)
  }

  /** The message for one required field: present exactly when the trimmed value is empty. */
  function FieldError(value: string, message: string): Option<string> {
    if Text.Trim(value) == "" then Some(message) else None
  }

  /** The errors `validateForm` records: a message for each required field whose trimmed value is empty. */
  function Errors(form: CreateTaskDialogData): (r: FormErrors)
    ensures r.title.Some? ==> r.title.value == "Title is required"
    ensures r.description.Some? ==> r.description.value == "Description is required"
    ensures r.labelName.Some? ==> r.labelName.value == "Label is required"
  {
    FormErrors(
      FieldError(form.title, "Title is required"),
      FieldError(form.description, "Description is required"),
      FieldError(form.labelName, "Label is required"))
  }

  /**
   * Exactly one message for each blank title, description or label; notes are
   * never checked; the form passes exactly when each of the three holds a
   * non-whitespace character.
   */
  lemma ErrorsIff(form: CreateTaskDialogData)
    ensures Errors(form).title.Some? <==> Blank(form.title)
    ensures Errors(form).description.Some? <==> Blank(form.description)
    ensures Errors(form).labelName.Some? <==> Blank(form.labelName)
    ensures Errors(form) == NoErrors <==> !Blank(form.title) && !Blank(form.description) && !Blank(form.labelName)
    ensures Errors(form.(notes := "")) == Errors(form)
  {
    Text.TrimEmptyIff(form.title);
    Text.TrimEmptyIff(form.description);
    Text.TrimEmptyIff(form.labelName);
  }

  /** The submit button's `disabled` condition. */
  function SubmitDisabled(form: CreateTaskDialogData): (r: bool)
    ensures r <==> Errors(form) != NoErrors
  {
    Text.Trim(form.title) == "" || Text.Trim(form.description) == "" || Text.Trim(form.labelName) == ""
  }

  /** The payload `handleSubmit` passes on: the four text fields trimmed, priority and category as chosen. */
  function SubmitPayload(form: CreateTaskDialogData): (r: CreateTaskDialogData)
    ensures r.priority == form.priority && r.category == form.category
  {
    form.(title := Text.Trim(form.title), description := Text.Trim(form.description),
          labelName := Text.Trim(form.labelName), notes := Text.Trim(form.notes))
  }

  /** No text field of a submitted payload starts or ends with whitespace. */
  predicate Tidy(s: string) {
    s != [] ==> !Text.IsWhitespace(s[0]) && !Text.IsWhitespace(s[|s| - 1])
  }

  /** What can reach the submit callback: non-empty required fields, all four text fields trimmed. */
  predicate Submittable(d: CreateTaskDialogData) {
    d.title != "" && d.description != "" && d.labelName != ""
    && Tidy(d.title) && Tidy(d.description) && Tidy(d.labelName) && Tidy(d.notes)
  }

  lemma FieldErrorOfTrimmed(value: string, message: string)
    ensures FieldError(Text.Trim(value), message) == FieldError(value, message)
  {
    Text.TrimIdempotent(value);
  }

  /** Trimming the payload again changes nothing, so it has the form's errors. */
  lemma PayloadKeepsErrors(form: CreateTaskDialogData)
    ensures Errors(SubmitPayload(form)) == Errors(form)
  {
    FieldErrorOfTrimmed(form.title, "Title is required");
    FieldErrorOfTrimmed(form.description, "Description is required");
    FieldErrorOfTrimmed(form.labelName, "Label is required");
  }

  /** A valid form's payload is submittable. */
  lemma PayloadOfValidForm(form: CreateTaskDialogData)
    requires Errors(form) == NoErrors
    ensures Submittable(SubmitPayload(form))
  {
    var p := SubmitPayload(form);
    assert p.title != "" && p.description != "" && p.labelName != "";
    assert Tidy(p.title) && Tidy(p.description) && Tidy(p.labelName) && Tidy(p.notes);
  }

  /** `getCategoryColor`: five fixed colours, grey for anything else. */
  function GetCategoryColor(category: string): (r: string)
    ensures r == "#9e9e9e" <==> category !in ["WINDSOR", "CUSTOMER", "VENDOR", "SHIPPER"]
  {
    match category
    case "WINDSOR" => "#f44336"
    case "CUSTOMER" => "#2196f3"
    case "VENDOR" => "#ff9800"
    case "SHIPPER" => "#795548"
    case "UNASSIGNED" => "#9e9e9e"
    case _ => "#9e9e9e"
  }

  /** The colours of the five categories, and no two named categories other than UNASSIGNED share one. */
  lemma CategoryColors()
    ensures GetCategoryColor(CategoryName(Windsor)) == "#f44336"
    ensures GetCategoryColor(CategoryName(Customer)) == "#2196f3"
    ensures GetCategoryColor(CategoryName(Vendor)) == "#ff9800"
    ensures GetCategoryColor(CategoryName(Shipper)) == "#795548"
    ensures GetCategoryColor(CategoryName(Unassigned)) == "#9e9e9e"
    ensures forall c, d :: c != d && GetCategoryColor(CategoryName(c)) == GetCategoryColor(CategoryName(d))
                           ==> false
  {
  }

  /** The text fields wired to `handleInputChange`. */
  datatype TextField = TitleField | DescriptionField | NotesField

  class CreateTaskDialog {
    var formData: CreateTaskDialogData
    var errors: FormErrors
    /** The payloads passed to `onSubmit`, oldest first. */
    var submitted: seq<CreateTaskDialogData>
    /** How many times `onClose` was called. */
    var closes: nat

    /** Everything ever submitted was submittable. */
    predicate Valid()
      reads this`submitted
    {
      forall i :: 0 <= i < |submitted| ==> Submittable(submitted[i])
    }

    constructor()
      ensures formData == InitialForm && errors == NoErrors && submitted == [] && closes == 0 && Valid()
    {
      formData := InitialForm;
      errors := NoErrors;
      submitted := [];
      closes := 0;
    }

    /** `validateForm`: records the errors of the current form and reports whether there are none. */
    method ValidateForm() returns (valid: bool)
      modifies this`errors
      ensures errors == Errors(formData)
      ensures valid <==> errors == NoErrors
    {
      var newErrors := NoErrors;
      if Text.Trim(formData.title) == "" {
        newErrors := newErrors.(title := Some("Title is required"));
      }
      if Text.Trim(formData.description) == "" {
        newErrors := newErrors.(description := Some("Description is required"));
      }
      if Text.Trim(formData.labelName) == "" {
        newErrors := newErrors.(labelName := Some("Label is required"));
      }
      errors := newErrors;
      valid := newErrors == NoErrors;
    }

    /** `handleClose`: the form back to its initial state, no errors, and the close callback once. */
    method HandleClose()
      modifies this`formData, this`errors, this`closes
      ensures formData == InitialForm && errors == NoErrors
      ensures closes == old(closes) + 1
    {
      formData := InitialForm;
      errors := NoErrors;
      closes := closes + 1;
    }

    /**
     * `handleSubmit`: a valid form is submitted trimmed and the dialog closes; an
     * invalid one only shows its errors.
     */
    method HandleSubmit()
      requires Valid()
      modifies this`formData, this`errors, this`submitted, this`closes
      ensures Valid()
      ensures Errors(old(formData)) == NoErrors ==>
                && submitted == old(submitted) + [SubmitPayload(old(formData))]
                && formData == InitialForm && errors == NoErrors && closes == old(closes) + 1
      ensures Errors(old(formData)) != NoErrors ==>
                && submitted == old(submitted) && formData == old(formData)
                && errors == Errors(old(formData)) && closes == old(closes)
    {
      var valid := ValidateForm();
      if valid {
        Submit();
        HandleClose();
      }
    }

    /** `onSubmit` with the trimmed form; a valid form's payload keeps the dialog valid. */
    method Submit()
      requires Valid() && Errors(formData) == NoErrors
      modifies this`submitted
      ensures submitted == old(submitted) + [SubmitPayload(formData)]
      ensures Valid()
    {
      PayloadOfValidForm(formData);
      submitted := submitted + [SubmitPayload(formData)];
    }

    /** `handleInputChange(field)`: the field takes the typed value and loses its error, if it had one. */
    method HandleInputChange(field: TextField, value: string)
      modifies this`formData, this`errors
      ensures field == TitleField ==> formData == old(formData).(title := value) && errors == old(errors).(title := None)
      ensures field == DescriptionField ==>
                formData == old(formData).(description := value) && errors == old(errors).(description := None)
      ensures field == NotesField ==> formData == old(formData).(notes := value) && errors == old(errors)
    {
      match field
      case TitleField =>
        formData := formData.(title := value);
        if errors.title.Some? { errors := errors.(title := None); }
      case DescriptionField =>
        formData := formData.(description := value);
        if errors.description.Some? { errors := errors.(description := None); }
      case NotesField =>
        formData := formData.(notes := value);
    }

    /** `handleLabelChange`: an absent choice clears the label; the label error goes. */
    method HandleLabelChange(newValue: Option<string>)
      modifies this`formData, this`errors
      ensures formData == old(formData).(labelName := newValue.GetOr(""))
      ensures errors == old(errors).(labelName := None)
    {
      formData := formData.(labelName := if newValue.Some? then newValue.value else "");
      if errors.labelName.Some? {
        errors := errors.(labelName := None);
      }
    }

    method HandlePriorityChange(priority: Priority)
      modifies this`formData
      ensures formData == old(formData).(priority := priority)
    {
      formData := formData.(priority := priority);
    }

    method HandleCategoryChange(category: Category)
      modifies this`formData
      ensures formData == old(formData).(category := category)
    {
      formData := formData.(category := category);
    }
  }
}
