/** The add/update enrollment form: its validator, including the duplicate
    check against the enrollments loaded into the page, the request it sends,
    and its submitting and error state. */
module EnrollmentForm {
  import opened Common
  import opened Clock
  import opened Entities
  import opened EnrollmentQueries
  import opened Updates
  import opened Listing

  const SelectUser := "Please select a user"
  const SelectCourse := "Please select a course"
  const SelectDate := "Please select an enrollment date"
  const AlreadyEnrolled := "This user is already enrolled in the selected course."
  const SubmitFailed := "Failed to save enrollment. Please try again."

  /** The keys of the form's error object. */
  datatype ErrorKey = UserKey | CourseKey | DateKey | DuplicateKey | SubmitKey

  /** An enrollment as the form loads it from the list endpoint. */
  datatype LoadedEnrollment = LoadedEnrollment(userId: Option<int>, courseId: Option<int>)

  /** Some loaded enrollment has this user and this course. */
  predicate LoadedPair(loaded: seq<LoadedEnrollment>, userId: Option<int>, courseId: Option<int>) {
    exists k :: 0 <= k < |loaded| && loaded[k].userId == userId && loaded[k].courseId == courseId
  }

  function SamePair(userId: Option<int>, courseId: Option<int>): LoadedEnrollment -> bool {
    (e: LoadedEnrollment) => e.userId == userId && e.courseId == courseId
  }

  /** `enrollments.find` over the pair finds a row iff the pair is loaded. */
  lemma FoundIffLoadedPair(loaded: seq<LoadedEnrollment>, userId: Option<int>, courseId: Option<int>)
    ensures FindFirst(SamePair(userId, courseId), loaded).Some? <==> LoadedPair(loaded, userId, courseId)
  {
    var r := FindFirst(SamePair(userId, courseId), loaded);
    if r.Some? {
      var k :| 0 <= k < |loaded| && loaded[k] == r.value;
    }
    if LoadedPair(loaded, userId, courseId) {
      var k :| 0 <= k < |loaded| && loaded[k].userId == userId && loaded[k].courseId == courseId;
      assert SamePair(userId, courseId)(loaded[k]);
    }
  }

  /** A chosen id: one that is missing (nothing selected) or not positive is
      refused. */
  predicate Chosen(id: Option<int>) {
    id.Some? && id.value > 0
  }

  /** validateForm. `editing` is whether the route carries an id: the
      duplicate check runs only when creating and both ids are selected, and
      looks for the first loaded enrollment of the same pair. */
  function ValidateEnrollment(userId: Option<int>, courseId: Option<int>, enrollmentDate: string, editing: bool,
                              loaded: seq<LoadedEnrollment>): (errors: map<ErrorKey, string>)
    ensures errors.Keys <= {UserKey, CourseKey, DateKey, DuplicateKey}
    ensures UserKey in errors <==> !Chosen(userId)
    ensures CourseKey in errors <==> !Chosen(courseId)
    ensures DateKey in errors <==> enrollmentDate == ""
    ensures DuplicateKey in errors <==> !editing && userId.Some? && courseId.Some? && LoadedPair(loaded, userId, courseId)
    ensures UserKey in errors ==> errors[UserKey] == SelectUser
    ensures CourseKey in errors ==> errors[CourseKey] == SelectCourse
    ensures DateKey in errors ==> errors[DateKey] == SelectDate
    ensures DuplicateKey in errors ==> errors[DuplicateKey] == AlreadyEnrolled
  {
    var existing :=
      if userId.Some? && courseId.Some? && !editing then FindFirst(SamePair(userId, courseId), loaded) else None;
    FoundIffLoadedPair(loaded, userId, courseId);
    var e0: map<ErrorKey, string> := map[];
    var e1 := if !Chosen(userId) then e0[UserKey := SelectUser] else e0;
    var e2 := if !Chosen(courseId) then e1[CourseKey := SelectCourse] else e1;
    var e3 := if enrollmentDate == "" then e2[DateKey := SelectDate] else e2;
    if existing.Some? then e3[DuplicateKey := AlreadyEnrolled] else e3
  }

  /** The pair of a stored enrollment as the list endpoint shows it. */
  function PairOf(e: Enrollment): LoadedEnrollment {
    LoadedEnrollment(Some(e.user), Some(e.course))
  }

  /** The loaded list shows exactly the stored pairs. */
  ghost predicate Mirrors(loaded: seq<LoadedEnrollment>, t: map<Id, Enrollment>) {
    forall x :: x in loaded <==> x in (set id | id in t :: PairOf(t[id]))
  }

  /** While the loaded list mirrors the table, a pair is loaded iff it is
      stored. */
  lemma {:induction false} MirroredPair(loaded: seq<LoadedEnrollment>, t: map<Id, Enrollment>, user: Id, course: Id)
    requires Mirrors(loaded, t)
    ensures LoadedPair(loaded, Some(user), Some(course)) <==> ExistsByUserAndCourse(t, user, course)
  {
    var x := LoadedEnrollment(Some(user), Some(course));
    if LoadedPair(loaded, Some(user), Some(course)) {
      var k :| 0 <= k < |loaded| && loaded[k].userId == Some(user) && loaded[k].courseId == Some(course);
      assert loaded[k] == x;
      assert x in loaded;
      assert x in (set id | id in t :: PairOf(t[id]));
      var id :| id in t && x == PairOf(t[id]);
    }
    if ExistsByUserAndCourse(t, user, course) {
      var id :| id in t && t[id].user == user && t[id].course == course;
      assert x == PairOf(t[id]);
      assert x in loaded;
      var k :| 0 <= k < |loaded| && loaded[k] == x;
    }
  }

  /** While the loaded list mirrors the table, the form refuses a new pair as
      a duplicate exactly when the server would. */
  lemma {:induction false} DuplicateAgreesWithServer(loaded: seq<LoadedEnrollment>, t: map<Id, Enrollment>,
                                                     user: Id, course: Id, date: string)
    requires Mirrors(loaded, t)
    ensures DuplicateKey in ValidateEnrollment(Some(user), Some(course), date, false, loaded)
            <==> ExistsByUserAndCourse(t, user, course)
  {
    MirroredPair(loaded, t, user, course);
  }

  /** The body the form sends: the three fields and no lesson. */
  datatype EnrollmentPayload = EnrollmentPayload(userId: Option<int>, courseId: Option<int>, enrollmentDate: string)

  datatype EnrollmentCall =
    | CreateEnrollment(payload: EnrollmentPayload)
    | UpdateEnrollment(id: string, payload: EnrollmentPayload)

  /** The payload as the enrollment endpoints read it: a lesson id the body
      does not carry is null, so an update sent from this form clears the
      stored lesson. */
  function AsRequest(p: EnrollmentPayload): (r: EnrollmentRequest)
    ensures r.lessonId.None?
    ensures r.userId == p.userId && r.courseId == p.courseId && r.enrollmentDate == Some(p.enrollmentDate)
  {
    EnrollmentRequest(p.userId, p.courseId, None, Some(p.enrollmentDate))
  }

  /** A form that passes sends selected, positive ids and a date; creating a
      pair already in the loaded list is refused. */
  lemma {:induction false} AcceptedFormIsComplete(userId: Option<int>, courseId: Option<int>, enrollmentDate: string,
                                                  editing: bool, loaded: seq<LoadedEnrollment>)
    requires ValidateEnrollment(userId, courseId, enrollmentDate, editing, loaded) == map[]
    ensures Chosen(userId) && Chosen(courseId) && enrollmentDate != ""
    ensures !editing ==> !LoadedPair(loaded, userId, courseId)
  {
    var errors := ValidateEnrollment(userId, courseId, enrollmentDate, editing, loaded);
    assert UserKey !in errors && CourseKey !in errors && DateKey !in errors && DuplicateKey !in errors;
  }

  class EnrollmentFormState {
    var userId: Option<int>
    var courseId: Option<int>
    var enrollmentDate: string
    var errors: map<ErrorKey, string>
    var isSubmitting: bool
    var loaded: seq<LoadedEnrollment>

    /** Nothing selected, today's date (`toISOString` gives the UTC date). */
    constructor (today: LocalDate)
      ensures userId == None && courseId == None && enrollmentDate == FormatDate(today)
      ensures errors == map[] && !isSubmitting && loaded == []
    {
      userId := None;
      courseId := None;
      enrollmentDate := FormatDate(today);
      errors := map[];
      isSubmitting := false;
      loaded := [];
    }

    /** The edit effect: a missing or zero id becomes no selection, a missing
        or empty date becomes today's. */
    method LoadForUpdate(user: Option<int>, course: Option<int>, date: Option<string>, today: LocalDate)
      modifies this`userId, this`courseId, this`enrollmentDate
      ensures userId == (if Truthy(user) then user else None)
      ensures courseId == (if Truthy(course) then course else None)
      ensures enrollmentDate == (if Present(date) then date.value else FormatDate(today))
      ensures Present(date) ==> enrollmentDate != ""
    {
      userId := if Truthy(user) then user else None;
      courseId := if Truthy(course) then course else None;
      enrollmentDate := if Present(date) then date.value else FormatDate(today);
    }

    /** saveOrUpdateEnrollment up to the request: the errors are replaced by
        the validator's; an invalid form sends nothing, a valid one marks the
        form as submitting and sends the three fields, as an update when the
        route carries an id and a create otherwise. */
    method Submit(routeId: Option<string>) returns (call: Option<EnrollmentCall>)
      modifies this`errors, this`isSubmitting
      ensures errors == ValidateEnrollment(userId, courseId, enrollmentDate, routeId.Some?, loaded)
      ensures call.Some? <==> errors == map[]
      ensures call.None? ==> isSubmitting == old(isSubmitting)
      ensures call.Some? ==>
                && isSubmitting
                && call.value.payload == EnrollmentPayload(userId, courseId, enrollmentDate)
                && (call.value.UpdateEnrollment? <==> routeId.Some?)
                && (call.value.UpdateEnrollment? ==> call.value.id == routeId.value)
    {
      var u, c, d, l := userId, courseId, enrollmentDate, loaded;
      var e := ValidateEnrollment(u, c, d, routeId.Some?, l);
      errors := e;
      if e != map[] {
        call := None;
      } else {
        isSubmitting := true;
        var payload := EnrollmentPayload(u, c, d);
        if routeId.Some? {
          call := Some(UpdateEnrollment(routeId.value, payload));
        } else {
          call := Some(CreateEnrollment(payload));
        }
      }
      assert userId == u && courseId == c && enrollmentDate == d && loaded == l;
    }

    /** When the request settles: a failure that came with a response body
        replaces the errors with the submit message; either way the form
        stops submitting. */
    method Settle(saved: bool, failureHasBody: bool)
      modifies this`errors, this`isSubmitting
      ensures !isSubmitting
      ensures !saved && failureHasBody ==> errors == map[SubmitKey := SubmitFailed]
      ensures saved || !failureHasBody ==> errors == old(errors)
    {
      if !saved && failureHasBody {
        errors := map[SubmitKey := SubmitFailed];
      }
      isSubmitting := false;
    }
  }
}
