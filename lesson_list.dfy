/** The lesson list page: the search filter, the sort select, the content
    preview of each card and the per-course grouping of the side bar. */
module LessonList {
  import opened Common
  import opened Text
  import opened Listing

  /** A lesson as the page receives it. */
  datatype LessonRow = LessonRow(
    lessonId: int,
    title: Option<string>,
    topic: Option<string>,
    content: Option<string>,
    courseId: Option<int>,
    courseTitle: Option<string>)

  /** A course as the side bar receives it. */
  datatype CourseRow = CourseRow(courseId: int, title: Option<string>)

  // ---------------------------------------------------------------------------
  // Search
  // ---------------------------------------------------------------------------

  /** The lowercased text of a field, '' when it is missing. */
  function LowerOr(s: Option<string>): string {
    Lower(s.GetOr(""))
  }

  /** A lesson is kept when the lowercased term occurs in its lowercased
      title, topic or content, or in its (non-zero) id written in decimal. */
  predicate LessonMatches(term: string, l: LessonRow) {
    var t := Lower(term);
    || Contains(LowerOr(l.title), t)
    || Contains(LowerOr(l.topic), t)
    || Contains(LowerOr(l.content), t)
    || (l.lessonId != 0 && Contains(IntToString(l.lessonId), t))
  }

  function FilterLessons(term: string, lessons: seq<LessonRow>): (r: seq<LessonRow>)
    ensures forall l :: l in r <==> l in lessons && LessonMatches(term, l)
    ensures |r| <= |lessons|
  {
    Filter(l => LessonMatches(term, l), lessons)
  }

  /** The search keeps the list order: the lessons kept from two lists are
      those kept from each, in order, and a single lesson is kept exactly when
      it matches. */
  lemma FilterLessonsAppend(term: string, a: seq<LessonRow>, b: seq<LessonRow>)
    ensures FilterLessons(term, a + b) == FilterLessons(term, a) + FilterLessons(term, b)
    ensures forall l :: FilterLessons(term, [l]) == if LessonMatches(term, l) then [l] else []
  {
    FilterAppend(l => LessonMatches(term, l), a, b);
  }

  /** An empty term keeps every lesson, in order. */
  lemma EmptySearchKeepsAll(lessons: seq<LessonRow>)
    ensures FilterLessons("", lessons) == lessons
  {
    forall l | l in lessons ensures LessonMatches("", l) {
      ContainsEmpty(LowerOr(l.title));
    }
    FilterAllPass(l => LessonMatches("", l), lessons);
  }

  // ---------------------------------------------------------------------------
  // Sort
  // ---------------------------------------------------------------------------

  predicate KnownLessonField(field: string) {
    field == "lessonId" || field == "title" || field == "topic" || field == "courseTitle"
  }

  /** The key the sort switch reads for a field; a missing text counts as ''. */
  function LessonKey(field: string, l: LessonRow): SortKey {
    if field == "lessonId" then Num(l.lessonId)
    else if field == "title" then Str(l.title.GetOr(""))
    else if field == "topic" then Str(l.topic.GetOr(""))
    else Str(l.courseTitle.GetOr(""))
  }

  function LessonKeyOf(field: string): LessonRow -> SortKey {
    l => LessonKey(field, l)
  }

  /** A sort order other than 'asc' sorts descending. */
  function OrderingOf(known: bool, sortOrder: string): (o: Ordering)
    ensures o.Unknown? <==> !known
  {
    if !known then Unknown else ByKey(if sortOrder == "asc" then Asc else Desc)
  }

  /** sortLessons: a new list holding the same lessons, in the order the field
      and direction ask for, ties kept in input order; an unknown field keeps
      the input order. */
  function SortLessons(sortField: string, sortOrder: string, lessons: seq<LessonRow>): (r: seq<LessonRow>)
    ensures multiset(r) == multiset(lessons)
    ensures Sorted(LessonKeyOf(sortField), OrderingOf(KnownLessonField(sortField), sortOrder), r)
    ensures forall k :: WithKey(LessonKeyOf(sortField), k, r) == WithKey(LessonKeyOf(sortField), k, lessons)
    ensures !KnownLessonField(sortField) ==> r == lessons
  {
    var key := LessonKeyOf(sortField);
    var ord := OrderingOf(KnownLessonField(sortField), sortOrder);
    SortBySorted(key, ord, lessons);
    forall k ensures WithKey(key, k, SortBy(key, ord, lessons)) == WithKey(key, k, lessons) {
      SortByStable(key, ord, k, lessons);
    }
    if !KnownLessonField(sortField) then
      UnknownFieldKeepsOrder(key, lessons);
      SortBy(key, ord, lessons)
    else
      SortBy(key, ord, lessons)
  }

  /** The list the filter effect stores: the lessons matching the search
      box's effective term, sorted. */
  function ShownLessons(box: SearchBox, sortField: string, sortOrder: string, lessons: seq<LessonRow>): (r: seq<LessonRow>)
    reads box
    ensures forall l :: l in r <==> l in lessons && LessonMatches(box.EffectiveTerm(), l)
    ensures multiset(r) == multiset(FilterLessons(box.EffectiveTerm(), lessons))
    ensures Sorted(LessonKeyOf(sortField), OrderingOf(KnownLessonField(sortField), sortOrder), r)
    ensures forall k :: WithKey(LessonKeyOf(sortField), k, r)
                        == WithKey(LessonKeyOf(sortField), k, FilterLessons(box.EffectiveTerm(), lessons))
  {
    var kept := FilterLessons(box.EffectiveTerm(), lessons);
    var r := SortLessons(sortField, sortOrder, kept);
    assert forall l :: l in r <==> l in multiset(kept);
    r
  }

  // ---------------------------------------------------------------------------
  // Content preview
  // ---------------------------------------------------------------------------

  /** The position of the first '>' in `s`. */
  function CloseAt(s: string): (k: nat)
    requires '>' in s
    ensures k < |s| && s[k] == '>' && '>' !in s[..k]
  {
    if s[0] == '>' then 0 else CloseAt(s[1..]) + 1
  }

  /** Removing every match of `<[^>]*>`, left to right: a '<' opens a tag only
      when a '>' follows it somewhere; the tag ends at the first such '>'. */
  function StripTags(s: string): (r: string)
    ensures |r| <= |s|
    decreases |s|
  {
    if s == [] then []
    else if s[0] == '<' && '>' in s[1..] then StripTags(s[1..][CloseAt(s[1..]) + 1..])
    else [s[0]] + StripTags(s[1..])
  }

  /** No '<' is followed, anywhere later, by a '>'. */
  predicate NoTag(s: string) {
    forall i, j :: 0 <= i < j < |s| && s[i] == '<' ==> s[j] != '>'
  }

  /** Stripping keeps only characters of the input, so it adds no '>'. */
  lemma {:induction false} StripTagsAddsNoClose(s: string)
    ensures '>' in StripTags(s) ==> '>' in s
    decreases |s|
  {
    if s == [] {
    } else if s[0] == '<' && '>' in s[1..] {
      var rest := s[1..][CloseAt(s[1..]) + 1..];
      StripTagsAddsNoClose(rest);
      if '>' in rest {
        var k :| 0 <= k < |rest| && rest[k] == '>';
        assert s[CloseAt(s[1..]) + 2 + k] == '>';
      }
    } else {
      StripTagsAddsNoClose(s[1..]);
      if '>' in StripTags(s[1..]) {
        assert '>' in s[1..];
        var k :| 0 <= k < |s[1..]| && s[1..][k] == '>';
        assert s[k + 1] == '>';
      }
    }
  }

  /** No tag survives the stripping. */
  lemma {:induction false} StripTagsLeavesNoTag(s: string)
    ensures NoTag(StripTags(s))
    decreases |s|
  {
    if s == [] {
    } else if s[0] == '<' && '>' in s[1..] {
      StripTagsLeavesNoTag(s[1..][CloseAt(s[1..]) + 1..]);
    } else {
      var t := StripTags(s[1..]);
      StripTagsLeavesNoTag(s[1..]);
      var r := [s[0]] + t;
      if s[0] == '<' {
        StripTagsAddsNoClose(s[1..]);
        assert '>' !in t;
      }
      forall i, j | 0 <= i < j < |r| && r[i] == '<' ensures r[j] != '>' {
        assert r[j] == t[j - 1];
        if i > 0 {
          assert r[i] == t[i - 1];
        } else {
          assert r[j] in t;
        }
      }
    }
  }

  /** Text without tags is left as it is, so stripping twice strips once. */
  lemma {:induction false} StripTagsKeepsTagFree(s: string)
    requires NoTag(s)
    ensures StripTags(s) == s
    decreases |s|
  {
    if s != [] {
      if s[0] == '<' {
        assert '>' !in s[1..] by {
          forall k | 0 <= k < |s[1..]| ensures s[1..][k] != '>' {
            assert s[1..][k] == s[k + 1];
          }
        }
      }
      assert NoTag(s[1..]) by {
        forall i, j | 0 <= i < j < |s[1..]| && s[1..][i] == '<' ensures s[1..][j] != '>' {
          assert s[1..][i] == s[i + 1] && s[1..][j] == s[j + 1];
        }
      }
      StripTagsKeepsTagFree(s[1..]);
    }
  }

  lemma StripTagsIdempotent(s: string)
    ensures StripTags(StripTags(s)) == StripTags(s)
  {
    StripTagsLeavesNoTag(s);
    StripTagsKeepsTagFree(StripTags(s));
  }

  const NoContent := "No content available"
  const Ellipsis := "..."
  const DefaultPreviewLength: nat := 100

  /** truncateContent: a placeholder for missing or empty content; otherwise
      the text without tags, cut to `maxLength` characters followed by '...'
      when it is longer. */
  function TruncateContent(content: Option<string>, maxLength: nat): (r: string)
    ensures !Present(content) ==> r == NoContent
    ensures Present(content) && |StripTags(content.value)| <= maxLength ==> r == StripTags(content.value)
    ensures Present(content) && |StripTags(content.value)| > maxLength ==>
              |r| == maxLength + |Ellipsis| && r[..maxLength] == StripTags(content.value)[..maxLength]
              && r[maxLength..] == Ellipsis
  {
    if !Present(content) then NoContent
    else
      var plain := StripTags(content.value);
      if |plain| > maxLength then plain[..maxLength] + Ellipsis else plain
  }

  /** A preview is never longer than `maxLength` plus the ellipsis and holds
      no tag. */
  lemma PreviewBounded(content: string, maxLength: nat)
    requires content != ""
    ensures |TruncateContent(Some(content), maxLength)| <= maxLength + |Ellipsis|
    ensures NoTag(TruncateContent(Some(content), maxLength))
  {
    var plain := StripTags(content);
    StripTagsLeavesNoTag(content);
    var r := TruncateContent(Some(content), maxLength);
    if |plain| > maxLength {
      forall i, j | 0 <= i < j < |r| && r[i] == '<' ensures r[j] != '>' {
        if j < maxLength {
          assert r[i] == plain[i] && r[j] == plain[j];
        } else {
          assert r[j] == Ellipsis[j - maxLength];
        }
      }
    }
  }

  // ---------------------------------------------------------------------------
  // Lessons by course
  // ---------------------------------------------------------------------------

  /** Each loaded course's id maps to exactly its lessons, in list order. */
  function LessonsByCourse(courses: seq<CourseRow>, lessons: seq<LessonRow>): (r: map<int, seq<LessonRow>>)
    ensures forall c :: c in r <==> exists k :: 0 <= k < |courses| && courses[k].courseId == c
    ensures forall c :: c in r ==> forall l :: l in r[c] <==> l in lessons && l.courseId == Some(c)
  {
    map c | c in (set k | 0 <= k < |courses| :: courses[k].courseId) :: Filter((l: LessonRow) => l.courseId == Some(c), lessons)
  }

  /** The grouping keeps the list order: each course's lessons from two lists
      are its lessons from each, in order, and a single lesson goes exactly
      to its own course. */
  lemma LessonsByCourseAppend(courses: seq<CourseRow>, a: seq<LessonRow>, b: seq<LessonRow>)
    ensures forall c :: c in LessonsByCourse(courses, a + b) ==>
              LessonsByCourse(courses, a + b)[c] == LessonsByCourse(courses, a)[c] + LessonsByCourse(courses, b)[c]
    ensures forall c, l :: c in LessonsByCourse(courses, [l]) ==>
              LessonsByCourse(courses, [l])[c] == if l.courseId == Some(c) then [l] else []
  {
    forall c | c in LessonsByCourse(courses, a + b)
      ensures LessonsByCourse(courses, a + b)[c] == LessonsByCourse(courses, a)[c] + LessonsByCourse(courses, b)[c]
    {
      FilterAppend((l: LessonRow) => l.courseId == Some(c), a, b);
    }
    forall c, l | c in LessonsByCourse(courses, [l])
      ensures LessonsByCourse(courses, [l])[c] == if l.courseId == Some(c) then [l] else []
    {
      FilterAppend((l: LessonRow) => l.courseId == Some(c), [], []);
    }
  }

  // ---------------------------------------------------------------------------
  // Cards under course headers
  // ---------------------------------------------------------------------------

  /** A lesson is shown under a course's header when its course id equals the
      course's, or when it carries a non-empty course title equal to the
      course's title. */
  predicate InGroup(course: CourseRow, l: LessonRow) {
    || l.courseId == Some(course.courseId)
    || (l.courseTitle.Some? && l.courseTitle.value != "" && l.courseTitle == course.title)
  }

  /** The cards under one course header: the shown lessons of that course, in
      list order, cut on their own at the visible count. */
  function CourseCards(course: CourseRow, shown: seq<LessonRow>, visibleCount: nat): (r: seq<LessonRow>)
    ensures var group := Filter(l => InGroup(course, l), shown);
            |r| == (if |group| < visibleCount then |group| else visibleCount) && r == group[..|r|]
    ensures forall l :: l in r ==> l in shown && InGroup(course, l)
  {
    var group := Filter(l => InGroup(course, l), shown);
    if |group| < visibleCount then group else group[..visibleCount]
  }

  /** Raising the visible count only adds cards at the end of each group. */
  lemma CourseCardsGrow(course: CourseRow, shown: seq<LessonRow>, n: nat, m: nat)
    requires n <= m
    ensures CourseCards(course, shown, n) <= CourseCards(course, shown, m)
  {
  }

  /** A group taken from two lists whose first belongs to the course and whose
      second has nothing of it is the first list, whole. */
  lemma GroupOfSplit(course: CourseRow, a: seq<LessonRow>, b: seq<LessonRow>, n: nat)
    requires forall l :: l in a ==> InGroup(course, l)
    requires forall l :: l in b ==> !InGroup(course, l)
    requires |a| <= n
    ensures CourseCards(course, a + b, n) == a
  {
    FilterAppend(l => InGroup(course, l), a, b);
    FilterAllPass(l => InGroup(course, l), a);
    FilterNonePass(l => InGroup(course, l), b);
  }

  /** The same, with the course's lessons in the second list. */
  lemma GroupOfSplitSecond(course: CourseRow, a: seq<LessonRow>, b: seq<LessonRow>, n: nat)
    requires forall l :: l in a ==> !InGroup(course, l)
    requires forall l :: l in b ==> InGroup(course, l)
    requires |b| <= n
    ensures CourseCards(course, a + b, n) == b
  {
    FilterAppend(l => InGroup(course, l), a, b);
    FilterNonePass(l => InGroup(course, l), a);
    FilterAllPass(l => InGroup(course, l), b);
  }

  /** Two courses with six matching lessons each: all twelve cards are on
      screen at the first page size, yet the button (which compares the
      whole filtered list with the visible count) still shows, and a larger
      visible count changes no group. */
  lemma LoadMoreMayRevealNothing()
    ensures var a := seq(6, i => LessonRow(i + 1, None, None, None, Some(1), None));
            var b := seq(6, i => LessonRow(i + 7, None, None, None, Some(2), None));
            var c1 := CourseRow(1, Some("A"));
            var c2 := CourseRow(2, Some("B"));
            && |a + b| > PageSize
            && CourseCards(c1, a + b, PageSize) == a == CourseCards(c1, a + b, PageSize + PageSize)
            && CourseCards(c2, a + b, PageSize) == b == CourseCards(c2, a + b, PageSize + PageSize)
  {
    var a := seq(6, i => LessonRow(i + 1, None, None, None, Some(1), None));
    var b := seq(6, i => LessonRow(i + 7, None, None, None, Some(2), None));
    var c1 := CourseRow(1, Some("A"));
    var c2 := CourseRow(2, Some("B"));
    assert forall l :: l in a ==> l.courseId == Some(1) && l.courseTitle == None;
    assert forall l :: l in b ==> l.courseId == Some(2) && l.courseTitle == None;
    GroupOfSplit(c1, a, b, PageSize);
    GroupOfSplit(c1, a, b, PageSize + PageSize);
    GroupOfSplitSecond(c2, a, b, PageSize);
    GroupOfSplitSecond(c2, a, b, PageSize + PageSize);
  }

  /** A lesson whose course id names one course and whose course title names
      another is shown under both headers. */
  lemma LessonUnderTwoHeaders(n: nat)
    requires n > 0
    ensures var l := LessonRow(1, None, None, None, Some(1), Some("B"));
            CourseCards(CourseRow(1, Some("A")), [l], n) == [l]
            && CourseCards(CourseRow(2, Some("B")), [l], n) == [l]
  {
    var l := LessonRow(1, None, None, None, Some(1), Some("B"));
    FilterAllPass(x => InGroup(CourseRow(1, Some("A")), x), [l]);
    FilterAllPass(x => InGroup(CourseRow(2, Some("B")), x), [l]);
  }

  /** A lesson matching no loaded course (neither by id nor by title) is under
      no header, although the button's count includes it. */
  lemma UnloadedCourseNeverShown(courses: seq<CourseRow>, shown: seq<LessonRow>, n: nat, l: LessonRow)
    requires forall c :: c in courses ==> !InGroup(c, l)
    ensures forall c :: c in courses ==> l !in CourseCards(c, shown, n)
  {
  }
}
