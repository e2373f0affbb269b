/** Request bodies and the per-field rules by which an update request
    rewrites a stored row: a field is overwritten only when the request
    carries it (non-null), and for some fields only when it is not blank
    after Java's trim, in which case the trimmed text is stored. */
module Updates {
  import opened Common
  import opened Text
  import opened Clock
  import opened Entities

  /** The JSON body of a user create or update: any field may be null. */
  datatype UserRequest = UserRequest(
    username: Option<string>,
    email: Option<string>,
    password: Option<string>,
    role: Option<string>,
    createdAt: Option<LocalDateTime>)

  datatype CourseRequest = CourseRequest(
    title: Option<string>,
    description: Option<string>,
    category: Option<string>,
    createdAt: Option<LocalDateTime>)

  /** A lesson body: `courseId` is absent both when no course object is sent
      and when it is sent without an id. */
  datatype LessonRequest = LessonRequest(
    courseId: Option<Id>,
    title: Option<string>,
    topic: Option<string>,
    content: Option<string>,
    createdAt: Option<LocalDateTime>)

  /** A comment body: `userId`/`lessonId` are absent both when no user/lesson
      object is sent and when it is sent without an id. */
  datatype CommentRequest = CommentRequest(
    userId: Option<Id>,
    lessonId: Option<Id>,
    content: Option<string>)

  /** EnrollmentDTO as a request: the date is text. */
  datatype EnrollmentRequest = EnrollmentRequest(
    userId: Option<Id>,
    courseId: Option<Id>,
    lessonId: Option<Id>,
    enrollmentDate: Option<string>)

  // ---------------------------------------------------------------------------
  // Partial updates
  // ---------------------------------------------------------------------------

  /** updateUser: username, email, password, role and createdAt are each
      overwritten when present; the view count and the rating are kept. */
  function PatchUser(u: User, req: UserRequest): (p: User)
    ensures p.username == (if req.username.Some? then req.username.value else u.username)
    ensures p.email == (if req.email.Some? then req.email.value else u.email)
    ensures p.password == (if req.password.Some? then req.password.value else u.password)
    ensures p.role == (if req.role.Some? then req.role.value else u.role)
    ensures p.createdAt == (if req.createdAt.Some? then req.createdAt.value else u.createdAt)
    ensures p.profileViews == u.profileViews && p.rating == u.rating
  {
    u.(username := req.username.GetOr(u.username),
       email := req.email.GetOr(u.email),
       password := req.password.GetOr(u.password),
       role := req.role.GetOr(u.role),
       createdAt := req.createdAt.GetOr(u.createdAt))
  }

  /** updateCourse: every field present in the request is overwritten as sent,
      the empty string included. */
  function PatchCourse(c: Course, req: CourseRequest): (p: Course)
    ensures p.title == (if req.title.Some? then req.title.value else c.title)
    ensures p.description == (if req.description.Some? then req.description else c.description)
    ensures p.category == (if req.category.Some? then req.category else c.category)
    ensures p.createdAt == (if req.createdAt.Some? then req.createdAt.value else c.createdAt)
  {
    c.(title := req.title.GetOr(c.title),
       description := if req.description.Some? then req.description else c.description,
       category := if req.category.Some? then req.category else c.category,
       createdAt := req.createdAt.GetOr(c.createdAt))
  }

  /** The text-field test of updateLesson and updateComment: the given text,
      trimmed, when it is present and not blank; nothing otherwise. */
  function NonBlankTrimmed(given: Option<string>): (r: Option<string>)
    ensures r.Some? <==> given.Some? && !IsBlank(JavaTrim, given.value)
    ensures r.Some? ==> r.value == Trim(JavaTrim, given.value) && r.value != []
  {
    if given.None? then None
    else
      TrimEmptyIffBlank(JavaTrim, given.value);
      var t := Trim(JavaTrim, given.value);
      if t != [] then Some(t) else None
  }

  /** updateLesson, once the course id (if any) has been found: the course is
      re-linked when an id is given, title and topic are replaced by their
      trimmed value when not blank, content is replaced whenever present (even
      empty, untrimmed), and createdAt is never touched. */
  function PatchLesson(l: Lesson, req: LessonRequest): (p: Lesson)
    ensures p.course == (if req.courseId.Some? then req.courseId.value else l.course)
    ensures req.title.Some? && !IsBlank(JavaTrim, req.title.value) ==> p.title == Trim(JavaTrim, req.title.value)
    ensures req.title.None? || IsBlank(JavaTrim, req.title.value) ==> p.title == l.title
    ensures req.topic.Some? && !IsBlank(JavaTrim, req.topic.value) ==> p.topic == Some(Trim(JavaTrim, req.topic.value))
    ensures req.topic.None? || IsBlank(JavaTrim, req.topic.value) ==> p.topic == l.topic
    ensures p.content == (if req.content.Some? then req.content else l.content)
    ensures p.createdAt == l.createdAt
  {
    var topic := NonBlankTrimmed(req.topic);
    l.(course := req.courseId.GetOr(l.course),
       title := NonBlankTrimmed(req.title).GetOr(l.title),
       topic := if topic.Some? then topic else l.topic,
       content := if req.content.Some? then req.content else l.content)
  }

  /** updateComment, once the user and lesson ids (if any) have been found:
      content is replaced by its trimmed value when not blank, user and lesson
      are re-linked when an id is given, and createdAt is never touched. */
  function PatchComment(c: Comment, req: CommentRequest): (p: Comment)
    ensures req.content.Some? && !IsBlank(JavaTrim, req.content.value) ==> p.content == Trim(JavaTrim, req.content.value)
    ensures req.content.None? || IsBlank(JavaTrim, req.content.value) ==> p.content == c.content
    ensures p.user == (if req.userId.Some? then req.userId.value else c.user)
    ensures p.lesson == (if req.lessonId.Some? then req.lessonId.value else c.lesson)
    ensures p.createdAt == c.createdAt
  {
    c.(content := NonBlankTrimmed(req.content).GetOr(c.content),
       user := req.userId.GetOr(c.user),
       lesson := req.lessonId.GetOr(c.lesson))
  }

  /** Sending the same update twice has the effect of sending it once. */
  lemma PatchUserIdempotent(u: User, req: UserRequest)
    ensures PatchUser(PatchUser(u, req), req) == PatchUser(u, req)
  {
  }

  lemma PatchCourseIdempotent(c: Course, req: CourseRequest)
    ensures PatchCourse(PatchCourse(c, req), req) == PatchCourse(c, req)
  {
  }

  /** Re-sending a lesson update is a no-op: every field it sets depends on
      the request alone. */
  lemma PatchLessonIdempotent(l: Lesson, req: LessonRequest)
    ensures PatchLesson(PatchLesson(l, req), req) == PatchLesson(l, req)
  {
    var p := PatchLesson(l, req);
    var q := PatchLesson(p, req);
    assert q.title == p.title && q.topic == p.topic;
  }

  lemma PatchCommentIdempotent(c: Comment, req: CommentRequest)
    ensures PatchComment(PatchComment(c, req), req) == PatchComment(c, req)
  {
    var p := PatchComment(c, req);
    assert PatchComment(p, req).content == p.content;
  }

  /** A lesson update that carries nothing but blank text changes nothing. */
  lemma BlankLessonPatchKeepsRow(l: Lesson, title: string, topic: string, at: Option<LocalDateTime>)
    requires IsBlank(JavaTrim, title) && IsBlank(JavaTrim, topic)
    ensures PatchLesson(l, LessonRequest(None, Some(title), Some(topic), None, at)) == l
  {
  }

  // ---------------------------------------------------------------------------
  // The enrollment date of a request
  // ---------------------------------------------------------------------------

  /** The date a create or update request asks for: `fallback` (the current
      time on create, the stored date on update) when the text is null or
      empty; otherwise the calendar date it names at midnight, or InvalidInput
      when it names none. */
  function RequestedDate(given: Option<string>, fallback: LocalDateTime): (r: Result<LocalDateTime>)
    ensures given.None? || given == Some("") ==> r == Ok(fallback)
    ensures given.Some? && given.value != "" ==> (r.Ok? <==> ParseDate(given.value).Some?)
    ensures r.Err? ==> r.error == InvalidInput
    ensures r.Ok? && given.Some? && given.value != "" ==>
      FormatDate(r.value.date) == given.value && r.value.hour == 0 && r.value.minute == 0 && r.value.second == 0
  {
    if given.None? || given.value == "" then Ok(fallback)
    else
      match ParseDate(given.value)
      case None => Err(InvalidInput)
      case Some(d) =>
        FormatParsedDate(given.value);
        Ok(AtStartOfDay(d))
  }
}
