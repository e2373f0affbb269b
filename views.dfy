/** The response bodies (DTOs) the controllers build from stored rows. */
module Views {
  import opened Common
  import opened Clock
  import opened Entities

  /** UserDTO: every user column except the password. */
  datatype UserView = UserView(
    userId: Id,
    username: string,
    email: string,
    role: string,
    createdAt: LocalDateTime,
    profileViews: nat,
    rating: real)

  datatype CourseView = CourseView(
    courseId: Id,
    title: string,
    description: Option<string>,
    category: Option<string>,
    createdAt: LocalDateTime)

  /** LessonDTO: courseId and courseTitle are null when the lesson has no course. */
  datatype LessonView = LessonView(
    lessonId: Id,
    title: string,
    topic: Option<string>,
    content: Option<string>,
    createdAt: LocalDateTime,
    courseId: Option<Id>,
    courseTitle: Option<string>)

  /** CommentDTO: createdAt rendered as `yyyy-MM-dd HH:mm:ss`. */
  datatype CommentView = CommentView(
    commentId: Id,
    userId: Id,
    userName: string,
    lessonId: Id,
    lessonTitle: string,
    courseId: Id,
    courseTitle: string,
    content: string,
    createdAt: string)

  /** EnrollmentDTO: the date part of enrollmentDate rendered as `yyyy-MM-dd`. */
  datatype EnrollmentView = EnrollmentView(
    enrollmentId: Id,
    userId: Id,
    userName: string,
    courseId: Id,
    courseName: string,
    lessonId: Option<Id>,
    enrollmentDate: string)

  function UserDto(id: Id, u: User): UserView {
    UserView(id, u.username, u.email, u.role, u.createdAt, u.profileViews, u.rating)
  }

  function CourseDto(id: Id, c: Course): CourseView {
    CourseView(id, c.title, c.description, c.category, c.createdAt)
  }

  /** The lesson projection: the course columns come from the lesson's course
      when there is one, and are null otherwise. */
  function LessonDto(db: Db, id: Id, l: Lesson): (v: LessonView)
    ensures v.courseId.Some? <==> l.course in db.courses
    ensures v.courseTitle.Some? <==> l.course in db.courses
    ensures l.course in db.courses ==> v.courseId == Some(l.course) && v.courseTitle == Some(db.courses[l.course].title)
    ensures v.lessonId == id && v.title == l.title && v.topic == l.topic && v.content == l.content && v.createdAt == l.createdAt
  {
    var course := if l.course in db.courses then Some(db.courses[l.course]) else None;
    LessonView(id, l.title, l.topic, l.content, l.createdAt,
      if course.Some? then Some(l.course) else None,
      if course.Some? then Some(course.value.title) else None)
  }

  /** The rows a comment's projection joins: its user, its lesson and that lesson's course. */
  predicate CommentJoins(db: Db, c: Comment) {
    c.user in db.users && c.lesson in db.lessons && db.lessons[c.lesson].course in db.courses
  }

  /** CommentDTO: the joined names are those of the comment's own user,
      lesson and course, and the timestamp is `yyyy-MM-dd HH:mm:ss` text. */
  function CommentDto(db: Db, id: Id, c: Comment): (v: CommentView)
    requires CommentJoins(db, c)
    ensures v.userName == db.users[c.user].username && v.lessonTitle == db.lessons[c.lesson].title
    ensures v.courseTitle == db.courses[db.lessons[c.lesson].course].title
    ensures IsTimestampText(v.createdAt)
  {
    var lesson := db.lessons[c.lesson];
    CommentView(id, c.user, db.users[c.user].username, c.lesson, lesson.title,
      lesson.course, db.courses[lesson.course].title, c.content, FormatTimestamp(c.createdAt))
  }

  /** The rows an enrollment's projection joins: its user and its course. */
  predicate EnrollmentJoins(db: Db, e: Enrollment) {
    e.user in db.users && e.course in db.courses
  }

  /** EnrollmentDTO: the joined names are those of the enrollment's own user
      and course, and the date text parses back to the stored date. */
  function EnrollmentDto(db: Db, id: Id, e: Enrollment): (v: EnrollmentView)
    requires EnrollmentJoins(db, e)
    ensures v.userName == db.users[e.user].username && v.courseName == db.courses[e.course].title
    ensures ParseDate(v.enrollmentDate) == Some(e.enrollmentDate.date)
  {
    ParseFormattedDate(e.enrollmentDate.date);
    EnrollmentView(id, e.user, db.users[e.user].username, e.course, db.courses[e.course].title,
      e.lesson, FormatDate(e.enrollmentDate.date))
  }
}
