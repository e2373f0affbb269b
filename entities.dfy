/** The persisted rows of the CodeMingle backend and the constraints their
    JPA mappings declare. A reference to another entity is held as that
    entity's id; a column declared `nullable = false` has a non-optional type,
    a nullable one an `Option`. */
module Entities {
  import opened Common
  import opened Clock

  /** users: username and email are UNIQUE; password, created_at and role are
      NOT NULL. profileViews and rating are the two columns the user
      controller reads and writes beside the mapped ones. */
  datatype User = User(
    username: string,
    email: string,
    password: string,
    createdAt: LocalDateTime,
    role: string,
    profileViews: nat,
    rating: real)

  /** courses: title and created_at are NOT NULL. */
  datatype Course = Course(
    title: string,
    description: Option<string>,
    category: Option<string>,
    createdAt: LocalDateTime)

  /** lessons: every lesson belongs to one course; title and created_at are NOT NULL. */
  datatype Lesson = Lesson(
    course: Id,
    title: string,
    topic: Option<string>,
    content: Option<string>,
    createdAt: LocalDateTime)

  /** comments: written by one user on one lesson. */
  datatype Comment = Comment(
    user: Id,
    lesson: Id,
    content: string,
    createdAt: LocalDateTime)

  /** enrollments: user_id, course_id and enrollment_date are NOT NULL,
      lesson_id is nullable. */
  datatype Enrollment = Enrollment(
    user: Id,
    course: Id,
    lesson: Option<Id>,
    enrollmentDate: LocalDateTime)

  /** quizzes: every quiz belongs to one lesson and has a title. */
  datatype Quiz = Quiz(
    lesson: Id,
    title: string,
    description: Option<string>,
    shuffleQuestions: bool,
    timeLimitMinutes: int,
    createdAt: LocalDateTime)

  /** questions: only the owning quiz matters to the model. */
  datatype Question = Question(quiz: Id)

  /** The whole database: one table per entity, keyed by generated id. */
  datatype Db = Db(
    users: map<Id, User>,
    courses: map<Id, Course>,
    lessons: map<Id, Lesson>,
    comments: map<Id, Comment>,
    enrollments: map<Id, Enrollment>,
    quizzes: map<Id, Quiz>,
    questions: map<Id, Question>)
  {
    /** The UNIQUE constraints on users.username and users.email. */
    ghost predicate UsersUnique() {
      forall a, b :: a in users && b in users && a != b ==>
        users[a].username != users[b].username && users[a].email != users[b].email
    }

    /** Every lesson's course exists. */
    ghost predicate LessonsLinked() {
      forall l :: l in lessons ==> lessons[l].course in courses
    }

    /** Every comment's user and lesson exist. */
    ghost predicate CommentsLinked() {
      forall c :: c in comments ==> comments[c].user in users && comments[c].lesson in lessons
    }

    /** Every enrollment's user and course exist. The nullable lesson column is
        not part of this invariant. */
    ghost predicate EnrollmentsLinked() {
      forall e :: e in enrollments ==> enrollments[e].user in users && enrollments[e].course in courses
    }

    /** Every quiz's lesson exists. */
    ghost predicate QuizzesLinked() {
      forall q :: q in quizzes ==> quizzes[q].lesson in lessons
    }

    /** Every question's quiz exists. */
    ghost predicate QuestionsLinked() {
      forall q :: q in questions ==> questions[q].quiz in quizzes
    }

    ghost predicate Valid() {
      && UsersUnique()
      && LessonsLinked()
      && CommentsLinked()
      && EnrollmentsLinked()
      && PairUnique(enrollments)
      && QuizzesLinked()
      && QuestionsLinked()
    }
  }

  /** The UNIQUE (user_id, course_id) constraint of the enrollments table:
      two rows with the same user and course are the same row. */
  ghost predicate PairUnique(t: map<Id, Enrollment>) {
    forall a, b :: a in t && b in t && t[a].user == t[b].user && t[a].course == t[b].course ==> a == b
  }
}
