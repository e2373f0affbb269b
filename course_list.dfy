/** The course list page: the search filter, the sort select, the course
    list load and the lesson fetch of the course detail. */
module CourseList {
  import opened Common
  import opened Text
  import opened Listing

  /** A course as the page receives it; createdAt as milliseconds since the
      epoch. */
  datatype CourseRow = CourseRow(
    courseId: int,
    title: Option<string>,
    description: Option<string>,
    createdAt: Option<int>)

  // ---------------------------------------------------------------------------
  // Search
  // ---------------------------------------------------------------------------

  /** A course is kept when the lowercased term occurs in its lowercased
      title or description (when present), or the term as typed occurs in its
      (non-zero) id written in decimal. */
  predicate CourseMatches(term: string, c: CourseRow) {
    || (Present(c.title) && Contains(Lower(c.title.value), Lower(term)))
    || (Present(c.description) && Contains(Lower(c.description.value), Lower(term)))
    || (c.courseId != 0 && Contains(IntToString(c.courseId), term))
  }

  /** The filter effect over the search box's effective term. */
  function FilterCourses(box: SearchBox, courses: seq<CourseRow>): (r: seq<CourseRow>)
    reads box
    ensures forall c :: c in r <==> c in courses && CourseMatches(box.EffectiveTerm(), c)
    ensures |r| <= |courses|
  {
    var term := box.EffectiveTerm();
    Filter(c => CourseMatches(term, c), courses)
  }

  /** The search keeps the list order: the courses kept from two lists are
      those kept from each, in order, and a single course is kept exactly when
      it matches. */
  lemma FilterCoursesAppend(box: SearchBox, a: seq<CourseRow>, b: seq<CourseRow>)
    ensures FilterCourses(box, a + b) == FilterCourses(box, a) + FilterCourses(box, b)
    ensures forall c :: FilterCourses(box, [c]) == if CourseMatches(box.EffectiveTerm(), c) then [c] else []
  {
    var term := box.EffectiveTerm();
    FilterAppend(c => CourseMatches(term, c), a, b);
  }

  /** With an empty term exactly the courses with a title, a description or
      a non-zero id are kept: one with none of them is hidden even then. */
  lemma EmptySearchKeeps(c: CourseRow)
    ensures CourseMatches("", c) <==> Present(c.title) || Present(c.description) || c.courseId != 0
  {
    if Present(c.title) { ContainsEmpty(Lower(c.title.value)); }
    if Present(c.description) { ContainsEmpty(Lower(c.description.value)); }
    if c.courseId != 0 { ContainsEmpty(IntToString(c.courseId)); }
  }

  // ---------------------------------------------------------------------------
  // Sort
  // ---------------------------------------------------------------------------

  predicate KnownCourseField(field: string) {
    field == "courseId" || field == "title" || field == "description" || field == "createdAt"
  }

  /** The key the sort switch reads for a field; a missing text counts as ''
      and a missing createdAt as the epoch. */
  function CourseKey(field: string, c: CourseRow): SortKey {
    if field == "courseId" then Num(c.courseId)
    else if field == "title" then Str(c.title.GetOr(""))
    else if field == "description" then Str(c.description.GetOr(""))
    else Num(c.createdAt.GetOr(0))
  }

  function CourseKeyOf(field: string): CourseRow -> SortKey {
    c => CourseKey(field, c)
  }

  function CourseOrdering(sortField: string, sortOrder: string): (o: Ordering)
    ensures o.Unknown? <==> !KnownCourseField(sortField)
    ensures o.ByKey? ==> (o.dir == Asc <==> sortOrder == "asc")
  {
    if !KnownCourseField(sortField) then Unknown
    else ByKey(if sortOrder == "asc" then Asc else Desc)
  }

  /** sortCourses: a new list holding the same courses in the order the field
      and direction ask for, ties kept in input order; an unknown field keeps
      the input order. */
  function SortCourses(sortField: string, sortOrder: string, courses: seq<CourseRow>): (r: seq<CourseRow>)
    ensures multiset(r) == multiset(courses)
    ensures Sorted(CourseKeyOf(sortField), CourseOrdering(sortField, sortOrder), r)
    ensures forall k :: WithKey(CourseKeyOf(sortField), k, r) == WithKey(CourseKeyOf(sortField), k, courses)
    ensures !KnownCourseField(sortField) ==> r == courses
  {
    var key := CourseKeyOf(sortField);
    var ord := CourseOrdering(sortField, sortOrder);
    SortBySorted(key, ord, courses);
    forall k ensures WithKey(key, k, SortBy(key, ord, courses)) == WithKey(key, k, courses) {
      SortByStable(key, ord, k, courses);
    }
    if !KnownCourseField(sortField) then
      UnknownFieldKeepsOrder(key, courses);
      SortBy(key, ord, courses)
    else
      SortBy(key, ord, courses)
  }

  // ---------------------------------------------------------------------------
  // Loading
  // ---------------------------------------------------------------------------

  /** What fetchLessons does for a selected course id: nothing is requested
      for a falsy id and the lesson list is emptied. */
  datatype LessonFetch = ClearLessons | RequestLessons(courseId: int)

  function FetchLessons(courseId: Option<int>): (f: LessonFetch)
    ensures f.ClearLessons? <==> !Truthy(courseId)
    ensures f.RequestLessons? ==> f.courseId == courseId.value
  {
    if !Truthy(courseId) then ClearLessons else RequestLessons(courseId.value)
  }

  /** The lessons shown for the selected course once fetchLessons settles: a
      failed request or a body that is not an array shows none. */
  function LessonsAfterFetch<L>(courseId: Option<int>, response: Option<Payload<L>>): (r: seq<L>)
    ensures !Truthy(courseId) || response.None? ==> r == []
    ensures Truthy(courseId) && response.Some? ==> r == RowsOf(response.value)
  {
    match FetchLessons(courseId)
    case ClearLessons => []
    case RequestLessons(_) => if response.None? then [] else RowsOf(response.value)
  }

  /** The course list after getAllCourses: the array it answers with, an
      empty list for any other body, and the current list when the request
      fails. */
  function CoursesAfterLoad(current: seq<CourseRow>, response: Option<Payload<CourseRow>>): (r: seq<CourseRow>)
    ensures response.None? ==> r == current
    ensures response.Some? && response.value.NotAnArray? ==> r == []
    ensures response.Some? && response.value.JsonArray? ==> r == response.value.items
  {
    if response.None? then current else RowsOf(response.value)
  }
}
