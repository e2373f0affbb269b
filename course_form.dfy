/** The add/update course form: its validator, the request it sends, and its
    submitting and error state. */
module CourseForm {
  import opened Common
  import opened Text

  const TitleRequired := "Course title is required"
  const TitleTooShort := "Title must be at least 3 characters"
  const DescriptionRequired := "Course description is required"
  const DescriptionTooShort := "Description must be at least 10 characters"
  const SubmitFailed := "Failed to save course. Please try again."

  /** The keys of the form's error object. */
  datatype ErrorKey = TitleKey | DescriptionKey | SubmitKey

  const MinTitleLength := 3
  const MinDescriptionLength := 10

  /** The message for one field: "required" when it is empty once trimmed,
      "too short" when its untrimmed length is below the minimum. */
  function FieldError(value: string, min: nat, required: string, tooShort: string): Option<string> {
    if Trim(JsTrim, value) == [] then Some(required)
    else if |value| < min then Some(tooShort)
    else None
  }

  /** validateForm: the error map, keyed by field name. */
  function ValidateCourse(title: string, description: string): (errors: map<ErrorKey, string>)
    ensures errors.Keys <= {TitleKey, DescriptionKey}
  {
    var t := FieldError(title, MinTitleLength, TitleRequired, TitleTooShort);
    var d := FieldError(description, MinDescriptionLength, DescriptionRequired, DescriptionTooShort);
    var withTitle: map<ErrorKey, string> := if t.Some? then map[TitleKey := t.value] else map[];
    if d.Some? then withTitle[DescriptionKey := d.value] else withTitle
  }

  /** A field is refused iff it is blank or shorter than its minimum as
      typed, and the message says which. */
  lemma FieldErrorRule(value: string, min: nat, required: string, tooShort: string)
    ensures FieldError(value, min, required, tooShort).Some? <==> IsBlank(JsTrim, value) || |value| < min
    ensures FieldError(value, min, required, tooShort).Some? ==>
              FieldError(value, min, required, tooShort).value == (if IsBlank(JsTrim, value) then required else tooShort)
  {
    TrimEmptyIffBlank(JsTrim, value);
  }

  /** The title is refused iff it is blank or shorter than 3 characters as
      typed, with the message saying which; the description likewise with 10. */
  lemma {:induction false} ValidateCourseRules(title: string, description: string)
    ensures var errors := ValidateCourse(title, description);
      && (TitleKey in errors <==> IsBlank(JsTrim, title) || |title| < MinTitleLength)
      && (TitleKey in errors ==>
            errors[TitleKey] == (if IsBlank(JsTrim, title) then TitleRequired else TitleTooShort))
      && (DescriptionKey in errors <==> IsBlank(JsTrim, description) || |description| < MinDescriptionLength)
      && (DescriptionKey in errors ==>
            errors[DescriptionKey] == (if IsBlank(JsTrim, description) then DescriptionRequired else DescriptionTooShort))
  {
    var errors := ValidateCourse(title, description);
    var t := FieldError(title, MinTitleLength, TitleRequired, TitleTooShort);
    var d := FieldError(description, MinDescriptionLength, DescriptionRequired, DescriptionTooShort);
    assert (TitleKey in errors <==> t.Some?) && (t.Some? ==> errors[TitleKey] == t.value);
    assert (DescriptionKey in errors <==> d.Some?) && (d.Some? ==> errors[DescriptionKey] == d.value);
    FieldErrorRule(title, MinTitleLength, TitleRequired, TitleTooShort);
    FieldErrorRule(description, MinDescriptionLength, DescriptionRequired, DescriptionTooShort);
  }

  /** The body sent to the course service. */
  datatype CoursePayload = CoursePayload(title: string, description: string)

  /** The trimmed fields. */
  function PayloadOf(title: string, description: string): CoursePayload {
    CoursePayload(Trim(JsTrim, title), Trim(JsTrim, description))
  }

  /** The request chosen by the route: update when it carries an id. */
  datatype CourseCall =
    | CreateCourse(payload: CoursePayload)
    | UpdateCourse(id: string, payload: CoursePayload)

  /** A title that passes is never blank and never shorter than 3 characters
      as typed, and the payload built from it is never empty. */
  lemma {:induction false} AcceptedTitleNotEmpty(title: string, description: string)
    requires TitleKey !in ValidateCourse(title, description)
    ensures |title| >= MinTitleLength
    ensures Trim(JsTrim, title) != []
  {
  }

  /** The length rule looks at the untrimmed text, so a title with padding
      passes while the trimmed title sent is shorter than 3 characters. */
  lemma PaddedShortTitlePasses()
    ensures TitleKey !in ValidateCourse(" ab", "an outline")
    ensures |PayloadOf(" ab", "an outline").title| == 2
  {
    TrimPaddedTitle();
  }

  lemma TrimPaddedTitle()
    ensures Trim(JsTrim, " ab") == "ab"
  {
    var ab := "ab";
    assert !IsSpace(JsTrim, ab[0]) && !IsSpace(JsTrim, ab[|ab| - 1]);
    TrimPadded(JsTrim, ' ', ab);
    assert [' '] + ab == " ab";
  }

  /** What pressing "save" does: the form is refused by the validator, a
      request goes out, or the handler throws before either (a description
      loaded as null has no `trim`). */
  datatype SubmitOutcome =
    | Refused
    | Sent(call: CourseCall)
    | Threw

  class CourseFormState {
    var title: string
    /** `None` is the null a course stored without a description loads as. */
    var description: Option<string>
    var errors: map<ErrorKey, string>
    var isSubmitting: bool

    constructor ()
      ensures title == "" && description == Some("") && errors == map[] && !isSubmitting
    {
      title := "";
      description := Some("");
      errors := map[];
      isSubmitting := false;
    }

    /** The edit page's load: the fetched course's title and description are
        copied as they come, a missing description included. */
    method LoadCourse(loadedTitle: string, loadedDescription: Option<string>)
      modifies this`title, this`description
      ensures title == loadedTitle && description == loadedDescription
    {
      title := loadedTitle;
      description := loadedDescription;
    }

    /** Typing in the title field. */
    method EditTitle(value: string)
      modifies this`title
      ensures title == value
    {
      title := value;
    }

    /** Typing in the description field: from then on it is a text. */
    method EditDescription(value: string)
      modifies this`description
      ensures description == Some(value)
    {
      description := Some(value);
    }

    /** saveOrUpdateCourse up to the request. A null description throws in
        the validator and nothing changes. Otherwise the errors are replaced
        by the validator's; an invalid form sends nothing, and a valid one is
        marked as submitting and sends the trimmed fields, as an update when
        the route carries an id and a create otherwise. */
    method Submit(routeId: Option<string>) returns (out: SubmitOutcome)
      modifies this`errors, this`isSubmitting
      ensures out.Threw? <==> description.None?
      ensures out.Threw? ==> errors == old(errors) && isSubmitting == old(isSubmitting)
      ensures description.Some? ==> errors == ValidateCourse(title, description.value)
      ensures out.Sent? <==> description.Some? && ValidateCourse(title, description.value) == map[]
      ensures out.Refused? ==> isSubmitting == old(isSubmitting)
      ensures out.Sent? ==>
                && isSubmitting
                && out.call.payload == PayloadOf(title, description.value)
                && (out.call.UpdateCourse? <==> routeId.Some?)
                && (out.call.UpdateCourse? ==> out.call.id == routeId.value)
    {
      if description.None? {
        return Threw;
      }
      var t, d := title, description.value;
      var e := ValidateCourse(t, d);
      var payload := PayloadOf(t, d);
      errors := e;
      if e != map[] {
        out := Refused;
      } else {
        isSubmitting := true;
        if routeId.Some? {
          out := Sent(UpdateCourse(routeId.value, payload));
        } else {
          out := Sent(CreateCourse(payload));
        }
      }
      assert title == t && description == Some(d);
    }

    /** When the request settles: a failure replaces the errors with the
        submit message; either way the form stops submitting. */
    method Settle(saved: bool)
      modifies this`errors, this`isSubmitting
      ensures !isSubmitting
      ensures saved ==> errors == old(errors)
      ensures !saved ==> errors == map[SubmitKey := SubmitFailed]
    {
      if !saved {
        errors := map[SubmitKey := SubmitFailed];
      }
      isSubmitting := false;
    }
  }
}
