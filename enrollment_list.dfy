/** The enrollment list page: the search filter over the looked-up user and
    course, the sort select, the detail modal's selection, and the delete
    confirmation. */
module EnrollmentList {
  import opened Common
  import opened Text
  import opened Listing

  /** An enrollment as the page receives it; the date is `yyyy-MM-dd` text. */
  datatype EnrollmentRow = EnrollmentRow(
    enrollmentId: int,
    userId: Option<int>,
    courseId: Option<int>,
    enrollmentDate: string)

  datatype UserRow = UserRow(userId: int, username: Option<string>)
  datatype CourseRow = CourseRow(courseId: int, title: Option<string>)

  /** The first loaded user whose id equals the enrollment's user id. */
  function UserOf(users: seq<UserRow>, e: EnrollmentRow): (r: Option<UserRow>)
    ensures r.Some? ==> r.value in users && e.userId == Some(r.value.userId)
    ensures r.None? <==> forall u :: u in users ==> e.userId != Some(u.userId)
  {
    FindFirst((u: UserRow) => e.userId == Some(u.userId), users)
  }

  /** The first loaded course whose id equals the enrollment's course id. */
  function CourseOf(courses: seq<CourseRow>, e: EnrollmentRow): (r: Option<CourseRow>)
    ensures r.Some? ==> r.value in courses && e.courseId == Some(r.value.courseId)
    ensures r.None? <==> forall c :: c in courses ==> e.courseId != Some(c.courseId)
  {
    FindFirst((c: CourseRow) => e.courseId == Some(c.courseId), courses)
  }

  // ---------------------------------------------------------------------------
  // Search
  // ---------------------------------------------------------------------------

  /** An enrollment is kept when its user's name or its course's title holds
      the term, case-insensitively, or its course's (non-zero) id holds the
      term as typed. */
  predicate EnrollmentMatches(users: seq<UserRow>, courses: seq<CourseRow>, term: string, e: EnrollmentRow) {
    var user := UserOf(users, e);
    var course := CourseOf(courses, e);
    || (user.Some? && Present(user.value.username) && Contains(Lower(user.value.username.value), Lower(term)))
    || (course.Some? && Present(course.value.title) && Contains(Lower(course.value.title.value), Lower(term)))
    || (course.Some? && course.value.courseId != 0 && Contains(IntToString(course.value.courseId), term))
  }

  function FilterEnrollments(users: seq<UserRow>, courses: seq<CourseRow>, term: string, enrollments: seq<EnrollmentRow>)
    : (r: seq<EnrollmentRow>)
    ensures forall e :: e in r <==> e in enrollments && EnrollmentMatches(users, courses, term, e)
    ensures |r| <= |enrollments|
  {
    Filter(e => EnrollmentMatches(users, courses, term, e), enrollments)
  }

  /** The search keeps the list order: the enrollments kept from two lists
      are those kept from each, in order, and a single enrollment is kept
      exactly when it matches. */
  lemma FilterEnrollmentsAppend(users: seq<UserRow>, courses: seq<CourseRow>, term: string,
                                a: seq<EnrollmentRow>, b: seq<EnrollmentRow>)
    ensures FilterEnrollments(users, courses, term, a + b)
            == FilterEnrollments(users, courses, term, a) + FilterEnrollments(users, courses, term, b)
    ensures forall e :: FilterEnrollments(users, courses, term, [e])
                        == if EnrollmentMatches(users, courses, term, e) then [e] else []
  {
    FilterAppend(e => EnrollmentMatches(users, courses, term, e), a, b);
  }

  /** An enrollment whose user and course are both missing from the loaded
      lists is never shown, whatever the term. */
  lemma UnresolvedNeverShown(users: seq<UserRow>, courses: seq<CourseRow>, term: string,
                             enrollments: seq<EnrollmentRow>, e: EnrollmentRow)
    requires forall u :: u in users ==> e.userId != Some(u.userId)
    requires forall c :: c in courses ==> e.courseId != Some(c.courseId)
    ensures e !in FilterEnrollments(users, courses, term, enrollments)
  {
    assert UserOf(users, e).None? && CourseOf(courses, e).None?;
  }

  // ---------------------------------------------------------------------------
  // Sort
  // ---------------------------------------------------------------------------

  predicate KnownEnrollmentField(field: string) {
    || field == "enrollmentId" || field == "userId" || field == "userName"
    || field == "courseId" || field == "courseName" || field == "enrollmentDate"
  }

  /** The key the sort switch reads for a field: a missing id compares as 0,
      a name that cannot be looked up as '', and a date by its text (the page
      compares the parsed dates instead). */
  function EnrollmentKey(users: seq<UserRow>, courses: seq<CourseRow>, field: string, e: EnrollmentRow): SortKey {
    if field == "enrollmentId" then Num(e.enrollmentId)
    else if field == "userId" then Num(e.userId.GetOr(0))
    else if field == "userName" then
      var u := UserOf(users, e);
      Str(if u.Some? then u.value.username.GetOr("") else "")
    else if field == "courseId" then Num(e.courseId.GetOr(0))
    else if field == "courseName" then
      var c := CourseOf(courses, e);
      Str(if c.Some? then c.value.title.GetOr("") else "")
    else Str(e.enrollmentDate)
  }

  function EnrollmentKeyOf(users: seq<UserRow>, courses: seq<CourseRow>, field: string): EnrollmentRow -> SortKey {
    e => EnrollmentKey(users, courses, field, e)
  }

  function EnrollmentOrdering(sortField: string, sortOrder: string): (o: Ordering)
    ensures o.Unknown? <==> !KnownEnrollmentField(sortField)
    ensures o.ByKey? ==> (o.dir == Asc <==> sortOrder == "asc")
  {
    if !KnownEnrollmentField(sortField) then Unknown
    else ByKey(if sortOrder == "asc" then Asc else Desc)
  }

  /** sortEnrollments: a new list holding the same enrollments in the order
      the field and direction ask for, ties kept in input order; an unknown
      field keeps the input order. */
  function SortEnrollments(users: seq<UserRow>, courses: seq<CourseRow>, sortField: string, sortOrder: string,
                           enrollments: seq<EnrollmentRow>): (r: seq<EnrollmentRow>)
    ensures multiset(r) == multiset(enrollments)
    ensures Sorted(EnrollmentKeyOf(users, courses, sortField), EnrollmentOrdering(sortField, sortOrder), r)
    ensures forall k :: WithKey(EnrollmentKeyOf(users, courses, sortField), k, r)
                        == WithKey(EnrollmentKeyOf(users, courses, sortField), k, enrollments)
    ensures !KnownEnrollmentField(sortField) ==> r == enrollments
  {
    var key := EnrollmentKeyOf(users, courses, sortField);
    var ord := EnrollmentOrdering(sortField, sortOrder);
    SortBySorted(key, ord, enrollments);
    forall k ensures WithKey(key, k, SortBy(key, ord, enrollments)) == WithKey(key, k, enrollments) {
      SortByStable(key, ord, k, enrollments);
    }
    if !KnownEnrollmentField(sortField) then
      UnknownFieldKeepsOrder(key, enrollments);
      SortBy(key, ord, enrollments)
    else
      SortBy(key, ord, enrollments)
  }

  // ---------------------------------------------------------------------------
  // Selection and delete
  // ---------------------------------------------------------------------------

  /** The first loaded enrollment with the given id. */
  function EnrollmentWithId(enrollments: seq<EnrollmentRow>, id: int): (r: Option<EnrollmentRow>)
    ensures r.Some? ==> r.value in enrollments && r.value.enrollmentId == id
    ensures r.None? <==> forall e :: e in enrollments ==> e.enrollmentId != id
  {
    FindFirst((e: EnrollmentRow) => e.enrollmentId == id, enrollments)
  }

  /** The detail modal's state. */
  class Selection {
    var selectedId: Option<int>
    var selected: Option<EnrollmentRow>
    var showModal: bool

    constructor ()
      ensures selectedId == None && selected == None && !showModal
    {
      selectedId := None;
      selected := None;
      showModal := false;
    }

    /** The selection effect: a truthy id selects the first loaded enrollment
        with that id (possibly none) and opens the modal; otherwise the
        selection is cleared and the modal closed. */
    method SelectionEffect(enrollments: seq<EnrollmentRow>)
      modifies this`selected, this`showModal
      ensures showModal <==> Truthy(selectedId)
      ensures Truthy(selectedId) ==> selected == EnrollmentWithId(enrollments, selectedId.value)
      ensures !Truthy(selectedId) ==> selected == None
    {
      if Truthy(selectedId) {
        selected := EnrollmentWithId(enrollments, selectedId.value);
        showModal := true;
      } else {
        selected := None;
        showModal := false;
      }
    }
  }

  /** deleteEnrollment: the delete request goes out only once confirmed. */
  function DeleteRequest(enrollmentId: int, confirmed: bool): (r: Option<int>)
    ensures r.Some? <==> confirmed
    ensures r.Some? ==> r.value == enrollmentId
  {
    if confirmed then Some(enrollmentId) else None
  }
}
