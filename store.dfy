/** The backend's controllers over one relational store. Every controller
    operation is a method (or, when it only reads, a function) of `Store`,
    returns the error the controller would raise instead of a response, and
    leaves every table as it was when it fails. Generated ids come from one
    IDENTITY counter per table; the current time is a parameter. */
module Store {
  import opened Common
  import opened Text
  import opened Clock
  import opened Entities
  import opened EnrollmentQueries
  import Cascade
  import opened Views
  import opened Updates
  import opened Auth
  import R = Rating

  /** Every key of `m` is below `n`: `n` is a fresh IDENTITY value. */
  ghost predicate KeysBelow<T>(m: map<Id, T>, n: Id) {
    forall k :: k in m ==> k < n
  }

  /** `findById` on an id the request may leave null succeeds. */
  predicate Known<T>(t: map<Id, T>, id: Option<Id>) {
    id.Some? && id.value in t
  }

  /** `findByUsername(name).isPresent()` */
  predicate UsernameTaken(t: map<Id, User>, name: string) {
    exists k :: k in t && t[k].username == name
  }

  /** `findByEmail(email).isPresent()` */
  predicate EmailTaken(t: map<Id, User>, email: string) {
    exists k :: k in t && t[k].email == email
  }

  /** Saving `u` as row `id` would break a UNIQUE column: some other row
      holds its username or its email. */
  predicate ClashesWithOther(t: map<Id, User>, id: Id, u: User) {
    exists k :: k in t && k != id && (t[k].username == u.username || t[k].email == u.email)
  }

  /** The tables are consistent and every id is below its table's counter. */
  ghost predicate Fits(db: Db, users: Id, courses: Id, lessons: Id, comments: Id, enrollments: Id) {
    && db.Valid()
    && KeysBelow(db.users, users)
    && KeysBelow(db.courses, courses)
    && KeysBelow(db.lessons, lessons)
    && KeysBelow(db.comments, comments)
    && KeysBelow(db.enrollments, enrollments)
  }

  lemma DeleteCourseFits(db: Db, id: Id, users: Id, courses: Id, lessons: Id, comments: Id, enrollments: Id)
    requires Fits(db, users, courses, lessons, comments, enrollments)
    ensures Fits(Cascade.DeleteCourse(db, id), users, courses, lessons, comments, enrollments)
  {
    Cascade.DeleteCourseKeepsValid(db, id);
  }

  lemma DeleteLessonFits(db: Db, id: Id, users: Id, courses: Id, lessons: Id, comments: Id, enrollments: Id)
    requires Fits(db, users, courses, lessons, comments, enrollments)
    ensures Fits(Cascade.DeleteLesson(db, id), users, courses, lessons, comments, enrollments)
  {
    Cascade.DeleteLessonKeepsValid(db, id);
  }

  lemma ReplaceLessonFits(db: Db, id: Id, l: Lesson, users: Id, courses: Id, lessons: Id, comments: Id, enrollments: Id)
    requires Fits(db, users, courses, lessons, comments, enrollments)
    requires id in db.lessons && l.course in db.courses
    ensures Fits(db.(lessons := db.lessons[id := l]), users, courses, lessons, comments, enrollments)
  {
    var r := db.(lessons := db.lessons[id := l]);
    assert r.lessons.Keys == db.lessons.Keys;
  }

  /** Writing a comment whose user and lesson exist keeps the tables
      consistent; a new row takes the next comment id. */
  lemma PutCommentFits(db: Db, id: Id, c: Comment, users: Id, courses: Id, lessons: Id, comments: Id, enrollments: Id)
    requires Fits(db, users, courses, lessons, comments, enrollments)
    requires id in db.comments || id == comments
    requires c.user in db.users && c.lesson in db.lessons
    ensures Fits(db.(comments := db.comments[id := c]), users, courses, lessons,
                 if id == comments then comments + 1 else comments, enrollments)
    ensures CommentJoins(db.(comments := db.comments[id := c]), c)
  {
    var r := db.(comments := db.comments[id := c]);
    assert r.CommentsLinked();
  }

  /** The number of enrollments and of comments a user has. */
  function EnrollmentCount(t: map<Id, Enrollment>, user: Id): nat {
    |FindByUser(t, user).Keys|
  }

  function CommentCount(t: map<Id, Comment>, user: Id): nat {
    |set c | c in t && t[c].user == user|
  }

  class Store {
    var users: map<Id, User>
    var courses: map<Id, Course>
    var lessons: map<Id, Lesson>
    var comments: map<Id, Comment>
    var enrollments: map<Id, Enrollment>
    var quizzes: map<Id, Quiz>
    var questions: map<Id, Question>

    var nextUserId: Id
    var nextCourseId: Id
    var nextLessonId: Id
    var nextCommentId: Id
    var nextEnrollmentId: Id

    /** The current contents of all tables. */
    function Tables(): Db
      reads this
    {
      Db(users, courses, lessons, comments, enrollments, quizzes, questions)
    }

    ghost predicate Valid()
      reads this
    {
      Fits(Tables(), nextUserId, nextCourseId, nextLessonId, nextCommentId, nextEnrollmentId)
    }

    /** A store over existing, consistent tables whose ids are all below `next`. */
    constructor (db: Db, next: Id)
      requires db.Valid()
      requires KeysBelow(db.users, next) && KeysBelow(db.courses, next) && KeysBelow(db.lessons, next)
      requires KeysBelow(db.comments, next) && KeysBelow(db.enrollments, next)
      ensures Valid() && Tables() == db
    {
      users, courses, lessons, comments := db.users, db.courses, db.lessons, db.comments;
      enrollments, quizzes, questions := db.enrollments, db.quizzes, db.questions;
      nextUserId, nextCourseId, nextLessonId, nextCommentId, nextEnrollmentId := next, next, next, next, next;
    }

    // -------------------------------------------------------------------------
    // Users
    // -------------------------------------------------------------------------

    /** createUser: createdAt defaults to now and role to "USER"; the insert
        fails when a NOT NULL column is missing or a UNIQUE one is taken. */
    method CreateUser(req: UserRequest, now: LocalDateTime) returns (r: Result<Id>)
      requires Valid()
      modifies this`users, this`nextUserId
      ensures Valid()
      ensures r.Ok? <==> req.username.Some? && req.email.Some? && req.password.Some?
                         && !UsernameTaken(old(users), req.username.value) && !EmailTaken(old(users), req.email.value)
      ensures r.Err? ==> r.error == ConstraintViolation && users == old(users)
      ensures r.Ok? ==> r.value !in old(users) && users == old(users)[r.value :=
                User(req.username.value, req.email.value, req.password.value,
                     req.createdAt.GetOr(now), req.role.GetOr("USER"), 0, 0.0)]
    {
      if req.username.None? || req.email.None? || req.password.None?
        || UsernameTaken(users, req.username.value) || EmailTaken(users, req.email.value)
      {
        return Err(ConstraintViolation);
      }
      var id := nextUserId;
      users := users[id := User(req.username.value, req.email.value, req.password.value,
                                req.createdAt.GetOr(now), req.role.GetOr("USER"), 0, 0.0)];
      nextUserId := nextUserId + 1;
      r := Ok(id);
    }

    function GetUserById(id: Id): (r: Result<UserView>)
      reads this
      ensures r.Ok? <==> id in users
      ensures r.Err? ==> r.error == NotFound
      ensures r.Ok? ==> r.value == UserDto(id, users[id])
    {
      if id in users then Ok(UserDto(id, users[id])) else Err(NotFound)
    }

    method GetUserByUsername(name: string) returns (r: Result<UserView>)
      ensures r.Ok? <==> UsernameTaken(users, name)
      ensures r.Err? ==> r.error == NotFound
      ensures r.Ok? ==> r.value.userId in users && r.value.username == name
                        && r.value == UserDto(r.value.userId, users[r.value.userId])
    {
      if UsernameTaken(users, name) {
        var id :| id in users && users[id].username == name;
        r := Ok(UserDto(id, users[id]));
      } else {
        r := Err(NotFound);
      }
    }

    /** updateUser: the present fields overwrite the stored ones (`PatchUser`);
        the save fails when the new username or email belongs to another user. */
    method UpdateUser(id: Id, req: UserRequest) returns (r: Result<UserView>)
      requires Valid()
      modifies this`users
      ensures Valid()
      ensures r.Ok? <==> id in old(users) && !ClashesWithOther(old(users), id, PatchUser(old(users)[id], req))
      ensures id !in old(users) ==> r == Err(NotFound)
      ensures id in old(users) && ClashesWithOther(old(users), id, PatchUser(old(users)[id], req)) ==>
                r == Err(ConstraintViolation)
      ensures r.Err? ==> users == old(users)
      ensures r.Ok? ==> id in old(users) && users == old(users)[id := PatchUser(old(users)[id], req)]
                        && r.value == UserDto(id, users[id])
    {
      if id !in users {
        return Err(NotFound);
      }
      var patched := PatchUser(users[id], req);
      if ClashesWithOther(users, id, patched) {
        return Err(ConstraintViolation);
      }
      users := users[id := patched];
      r := Ok(UserDto(id, patched));
    }

    /** incrementProfileViews: one more view, nothing else changes. */
    method IncrementProfileViews(id: Id) returns (r: Result<UserView>)
      requires Valid()
      modifies this`users
      ensures Valid()
      ensures r.Ok? <==> id in old(users)
      ensures r.Err? ==> r.error == NotFound && users == old(users)
      ensures r.Ok? ==> users == old(users)[id := old(users)[id].(profileViews := old(users)[id].profileViews + 1)]
                        && r.value.profileViews == old(users)[id].profileViews + 1
      ensures r.Ok? ==> r.value == UserDto(id, users[id])
    {
      if id !in users {
        return Err(NotFound);
      }
      var u := users[id];
      users := users[id := u.(profileViews := u.profileViews + 1)];
      r := Ok(UserDto(id, users[id]));
    }

    /** calculateRating: the rating is recomputed from the user's number of
        enrollments and comments, and stays between 3.0 and 5.0. */
    method CalculateRating(id: Id) returns (r: Result<UserView>)
      requires Valid()
      modifies this`users
      ensures Valid()
      ensures r.Ok? <==> id in old(users)
      ensures r.Err? ==> r.error == NotFound && users == old(users)
      ensures r.Ok? ==> users == old(users)[id := old(users)[id].(rating :=
                          R.Rating(EnrollmentCount(enrollments, id), CommentCount(comments, id)))]
      ensures r.Ok? ==> 3.0 <= r.value.rating <= 5.0 && r.value == UserDto(id, users[id])
    {
      if id !in users {
        return Err(NotFound);
      }
      var u := users[id];
      var rating := R.Rating(EnrollmentCount(enrollments, id), CommentCount(comments, id));
      users := users[id := u.(rating := rating)];
      r := Ok(UserDto(id, users[id]));
    }

    /** deleteUser: the user goes, and with it its enrollments and comments. */
    method DeleteUser(id: Id) returns (r: Result<()>)
      requires Valid()
      modifies this`users, this`enrollments, this`comments
      ensures Valid()
      ensures r.Ok? <==> id in old(users)
      ensures r.Err? ==> r.error == NotFound && Tables() == old(Tables())
      ensures r.Ok? ==> Tables() == Cascade.DeleteUser(old(Tables()), id)
    {
      if id !in users {
        return Err(NotFound);
      }
      ghost var before := Tables();
      users := users - {id};
      enrollments := map e | e in enrollments && enrollments[e].user != id :: enrollments[e];
      comments := map c | c in comments && comments[c].user != id :: comments[c];
      assert Tables() == Cascade.DeleteUser(before, id);
      Cascade.DeleteUserKeepsValid(before, id);
      r := Ok(());
    }

    // -------------------------------------------------------------------------
    // Authentication
    // -------------------------------------------------------------------------

    /** register: the three fields are required, the username is checked
        before the email, and a new account gets role "USER", createdAt = now
        and the encoder's output as its password. */
    method Register(req: RegisterRequest, now: LocalDateTime, encode: string -> string) returns (r: AuthResponse)
      requires Valid()
      modifies this`users, this`nextUserId
      ensures Valid()
      ensures req.username.None? || req.email.None? || req.password.None? ==> r == Refused(400, MissingFields)
      ensures req.username.Some? && req.email.Some? && req.password.Some? ==>
                && (UsernameTaken(old(users), req.username.value) ==> r == Refused(400, UsernameExists))
                && (!UsernameTaken(old(users), req.username.value) && EmailTaken(old(users), req.email.value) ==>
                      r == Refused(400, EmailExists))
                && (!UsernameTaken(old(users), req.username.value) && !EmailTaken(old(users), req.email.value) ==>
                      r == Granted(201, req.username.value, "USER", req.email.value, "Registration successful"))
      ensures r.Refused? ==> users == old(users)
      ensures r.Granted? ==> old(nextUserId) !in old(users) && users == old(users)[old(nextUserId) :=
                User(req.username.value, req.email.value, encode(req.password.value), now, "USER", 0, 0.0)]
    {
      if req.username.None? || req.email.None? || req.password.None? {
        return Refused(400, MissingFields);
      }
      if UsernameTaken(users, req.username.value) {
        return Refused(400, UsernameExists);
      }
      if EmailTaken(users, req.email.value) {
        return Refused(400, EmailExists);
      }
      users := users[nextUserId := User(req.username.value, req.email.value, encode(req.password.value), now, "USER", 0, 0.0)];
      nextUserId := nextUserId + 1;
      r := Granted(201, req.username.value, "USER", req.email.value, "Registration successful");
    }

    /** login: `authenticated` is the authentication manager's verdict on the
        credentials. Every failure, including a user that cannot be loaded
        afterwards, is the same 401. */
    method Login(username: Option<string>, authenticated: bool) returns (r: AuthResponse)
      ensures r.Granted? <==> authenticated && username.Some? && UsernameTaken(users, username.value)
      ensures r.Refused? ==> r == Refused(401, BadCredentials)
      ensures r.Granted? ==> r.status == 200 && r.username == username.value
                             && exists k :: k in users && users[k].username == username.value
                                            && users[k].role == r.role && users[k].email == r.email
    {
      if !authenticated || username.None? || !UsernameTaken(users, username.value) {
        return Refused(401, BadCredentials);
      }
      var id :| id in users && users[id].username == username.value;
      r := Granted(200, users[id].username, users[id].role, users[id].email, "Login successful");
    }

    // -------------------------------------------------------------------------
    // Courses
    // -------------------------------------------------------------------------

    /** createCourse: createdAt defaults to now only when absent; a missing
        title is refused by the NOT NULL column. */
    method CreateCourse(req: CourseRequest, now: LocalDateTime) returns (r: Result<Id>)
      requires Valid()
      modifies this`courses, this`nextCourseId
      ensures Valid()
      ensures r.Ok? <==> req.title.Some?
      ensures r.Err? ==> r.error == ConstraintViolation && courses == old(courses)
      ensures r.Ok? ==> r.value !in old(courses) && courses == old(courses)[r.value :=
                Course(req.title.value, req.description, req.category, req.createdAt.GetOr(now))]
    {
      if req.title.None? {
        return Err(ConstraintViolation);
      }
      var id := nextCourseId;
      courses := courses[id := Course(req.title.value, req.description, req.category, req.createdAt.GetOr(now))];
      nextCourseId := nextCourseId + 1;
      r := Ok(id);
    }

    function GetCourseById(id: Id): (r: Result<CourseView>)
      reads this
      ensures r.Ok? <==> id in courses
      ensures r.Err? ==> r.error == NotFound
      ensures r.Ok? ==> r.value == CourseDto(id, courses[id])
    {
      if id in courses then Ok(CourseDto(id, courses[id])) else Err(NotFound)
    }

    /** updateCourse: the present fields overwrite the stored ones
        (`PatchCourse`); the id never changes and the response is the row as
        stored after the write. */
    method UpdateCourse(id: Id, req: CourseRequest) returns (r: Result<CourseView>)
      requires Valid()
      modifies this`courses
      ensures Valid()
      ensures r.Ok? <==> id in old(courses)
      ensures r.Err? ==> r.error == NotFound && courses == old(courses)
      ensures r.Ok? ==> courses == old(courses)[id := PatchCourse(old(courses)[id], req)]
                        && r.value == CourseDto(id, courses[id])
    {
      if id !in courses {
        return Err(NotFound);
      }
      courses := courses[id := PatchCourse(courses[id], req)];
      r := Ok(CourseDto(id, courses[id]));
    }

    /** deleteCourse: the course goes with its lessons (and their comments,
        quizzes and questions) and its enrollments. */
    method DeleteCourse(id: Id) returns (r: Result<()>)
      requires Valid()
      modifies this`courses, this`lessons, this`enrollments, this`comments, this`quizzes, this`questions
      ensures Valid()
      ensures r.Ok? <==> id in old(courses)
      ensures r.Err? ==> r.error == NotFound && Tables() == old(Tables())
      ensures r.Ok? ==> Tables() == Cascade.DeleteCourse(old(Tables()), id)
    {
      if id !in courses {
        return Err(NotFound);
      }
      var after := Cascade.DeleteCourse(Tables(), id);
      DeleteCourseFits(Tables(), id, nextUserId, nextCourseId, nextLessonId, nextCommentId, nextEnrollmentId);
      courses, lessons, enrollments := after.courses, after.lessons, after.enrollments;
      comments, quizzes, questions := after.comments, after.quizzes, after.questions;
      assert Tables() == after;
      r := Ok(());
    }

    // -------------------------------------------------------------------------
    // Lessons
    // -------------------------------------------------------------------------

    /** createLesson: createdAt defaults to now; a given course id must be
        found; a lesson without a course or without a title is refused by the
        NOT NULL columns. */
    method CreateLesson(req: LessonRequest, now: LocalDateTime) returns (r: Result<Id>)
      requires Valid()
      modifies this`lessons, this`nextLessonId
      ensures Valid()
      ensures r.Ok? <==> Known(courses, req.courseId) && req.title.Some?
      ensures r.Err? ==> lessons == old(lessons)
      ensures r.Err? ==> r.error == (if req.courseId.Some? && req.courseId.value !in courses then NotFound else ConstraintViolation)
      ensures r.Ok? ==> r.value !in old(lessons) && lessons == old(lessons)[r.value :=
                Lesson(req.courseId.value, req.title.value, req.topic, req.content, req.createdAt.GetOr(now))]
    {
      var createdAt := req.createdAt.GetOr(now);
      if req.courseId.Some? && req.courseId.value !in courses {
        return Err(NotFound);
      }
      if req.courseId.None? || req.title.None? {
        return Err(ConstraintViolation);
      }
      var id := nextLessonId;
      lessons := lessons[id := Lesson(req.courseId.value, req.title.value, req.topic, req.content, createdAt)];
      nextLessonId := nextLessonId + 1;
      r := Ok(id);
    }

    function GetLessonById(id: Id): (r: Result<LessonView>)
      reads this
      ensures r.Ok? <==> id in lessons
      ensures r.Err? ==> r.error == NotFound
      ensures r.Ok? ==> r.value == LessonDto(Tables(), id, lessons[id])
    {
      if id in lessons then Ok(LessonDto(Tables(), id, lessons[id])) else Err(NotFound)
    }

    /** updateLesson: a given course id must be found before anything changes;
        then the row is rewritten by `PatchLesson` (createdAt and the id stay). */
    method UpdateLesson(id: Id, req: LessonRequest) returns (r: Result<LessonView>)
      requires Valid()
      modifies this`lessons
      ensures Valid()
      ensures r.Ok? <==> id in old(lessons) && (req.courseId.None? || req.courseId.value in courses)
      ensures r.Err? ==> r.error == NotFound && lessons == old(lessons)
      ensures r.Ok? ==> lessons == old(lessons)[id := PatchLesson(old(lessons)[id], req)]
                        && r.value == LessonDto(Tables(), id, lessons[id])
                        && r.value.courseId == Some(lessons[id].course)
    {
      if id !in lessons {
        return Err(NotFound);
      }
      if req.courseId.Some? && req.courseId.value !in courses {
        return Err(NotFound);
      }
      var patched := PatchLesson(lessons[id], req);
      ReplaceLessonFits(Tables(), id, patched, nextUserId, nextCourseId, nextLessonId, nextCommentId, nextEnrollmentId);
      lessons := lessons[id := patched];
      r := Ok(LessonDto(Tables(), id, patched));
    }

    /** getLessonsByCourseId: exactly the lessons of that course. */
    function LessonsByCourseId(courseId: Id): (r: map<Id, LessonView>)
      reads this
      ensures forall k :: k in r <==> k in lessons && lessons[k].course == courseId
      ensures forall k :: k in r ==> r[k] == LessonDto(Tables(), k, lessons[k])
    {
      map k | k in lessons && lessons[k].course == courseId :: LessonDto(Tables(), k, lessons[k])
    }

    /** deleteLesson: the lesson goes with its comments, its quizzes and their
        questions. */
    method DeleteLesson(id: Id) returns (r: Result<()>)
      requires Valid()
      modifies this`lessons, this`comments, this`quizzes, this`questions
      ensures Valid()
      ensures r.Ok? <==> id in old(lessons)
      ensures r.Err? ==> r.error == NotFound && Tables() == old(Tables())
      ensures r.Ok? ==> Tables() == Cascade.DeleteLesson(old(Tables()), id)
    {
      if id !in lessons {
        return Err(NotFound);
      }
      var after := Cascade.DeleteLesson(Tables(), id);
      DeleteLessonFits(Tables(), id, nextUserId, nextCourseId, nextLessonId, nextCommentId, nextEnrollmentId);
      lessons, comments, quizzes, questions := after.lessons, after.comments, after.quizzes, after.questions;
      assert Tables() == after;
      r := Ok(());
    }

    // -------------------------------------------------------------------------
    // Comments
    // -------------------------------------------------------------------------

    /** createComment: the content is trimmed (a null content fails first),
        createdAt is now, and the user and then the lesson must be found. */
    method CreateComment(req: CommentRequest, now: LocalDateTime) returns (r: Result<CommentView>)
      requires Valid()
      modifies this`comments, this`nextCommentId
      ensures Valid()
      ensures r.Err? ==> comments == old(comments)
      ensures req.content.None? || req.userId.None? ==> r == Err(InvalidInput)
      ensures req.content.Some? && req.userId.Some? && req.userId.value !in users ==> r == Err(NotFound)
      ensures req.content.Some? && Known(users, req.userId) && req.lessonId.None? ==> r == Err(InvalidInput)
      ensures req.content.Some? && Known(users, req.userId) && req.lessonId.Some? && req.lessonId.value !in lessons ==>
                r == Err(NotFound)
      ensures r.Ok? <==> req.content.Some? && Known(users, req.userId) && Known(lessons, req.lessonId)
      ensures r.Ok? ==> old(nextCommentId) !in old(comments)
                        && comments == old(comments)[old(nextCommentId) :=
                             Comment(req.userId.value, req.lessonId.value, Trim(JavaTrim, req.content.value), now)]
                        && r.value == CommentDto(Tables(), old(nextCommentId), comments[old(nextCommentId)])
    {
      if req.content.None? || req.userId.None? {
        return Err(InvalidInput);
      }
      var content := Trim(JavaTrim, req.content.value);
      if req.userId.value !in users {
        return Err(NotFound);
      }
      if req.lessonId.None? {
        return Err(InvalidInput);
      }
      if req.lessonId.value !in lessons {
        return Err(NotFound);
      }
      var id := nextCommentId;
      var row := Comment(req.userId.value, req.lessonId.value, content, now);
      var db := Tables();
      assert id !in db.comments;
      PutCommentFits(db, id, row, nextUserId, nextCourseId, nextLessonId, id, nextEnrollmentId);
      var after := db.(comments := db.comments[id := row]);
      comments := after.comments;
      nextCommentId := id + 1;
      assert Tables() == after;
      r := Ok(CommentDto(after, id, row));
    }

    function GetCommentById(id: Id): (r: Result<CommentView>)
      requires Valid()
      reads this
      ensures r.Ok? <==> id in comments
      ensures r.Err? ==> r.error == NotFound
      ensures r.Ok? ==> r.value == CommentDto(Tables(), id, comments[id]) && IsTimestampText(r.value.createdAt)
    {
      if id in comments then Ok(CommentDto(Tables(), id, comments[id])) else Err(NotFound)
    }

    /** updateComment: the row is rewritten by `PatchComment` once a given
        user id and a given lesson id have been found. */
    method UpdateComment(id: Id, req: CommentRequest) returns (r: Result<CommentView>)
      requires Valid()
      modifies this`comments
      ensures Valid()
      ensures r.Ok? <==> id in old(comments) && (req.userId.None? || req.userId.value in users)
                         && (req.lessonId.None? || req.lessonId.value in lessons)
      ensures r.Err? ==> r.error == NotFound && comments == old(comments)
      ensures r.Ok? ==> comments == old(comments)[id := PatchComment(old(comments)[id], req)]
                        && r.value == CommentDto(Tables(), id, comments[id])
    {
      if id !in comments {
        return Err(NotFound);
      }
      if req.userId.Some? && req.userId.value !in users {
        return Err(NotFound);
      }
      if req.lessonId.Some? && req.lessonId.value !in lessons {
        return Err(NotFound);
      }
      var patched := PatchComment(comments[id], req);
      var db := Tables();
      PutCommentFits(db, id, patched, nextUserId, nextCourseId, nextLessonId, nextCommentId, nextEnrollmentId);
      var after := db.(comments := db.comments[id := patched]);
      comments := after.comments;
      assert Tables() == after;
      r := Ok(CommentDto(after, id, patched));
    }

    method DeleteComment(id: Id) returns (r: Result<()>)
      requires Valid()
      modifies this`comments
      ensures Valid()
      ensures r.Ok? <==> id in old(comments)
      ensures r.Err? ==> r.error == NotFound
      ensures comments == old(comments) - {id}
    {
      if id !in comments {
        return Err(NotFound);
      }
      comments := comments - {id};
      r := Ok(());
    }

    // -------------------------------------------------------------------------
    // Enrollments
    // -------------------------------------------------------------------------

    /** getAllEnrollments: every row, with or without a lesson. */
    function GetAllEnrollments(): (r: map<Id, EnrollmentView>)
      requires Valid()
      reads this
      ensures r.Keys == enrollments.Keys
      ensures forall k :: k in r ==> r[k] == EnrollmentDto(Tables(), k, enrollments[k])
    {
      map k | k in enrollments :: EnrollmentDto(Tables(), k, enrollments[k])
    }

    /** createEnrollment: the user, then the course are resolved, then the pair
        is checked for a duplicate, then the optional lesson is resolved and
        the date read; the first failure is the answer and nothing is added. */
    method CreateEnrollment(req: EnrollmentRequest, now: LocalDateTime) returns (r: Result<Id>)
      requires Valid()
      modifies this`enrollments, this`nextEnrollmentId
      ensures Valid()
      ensures r.Err? ==> enrollments == old(enrollments)
      ensures req.userId.None? ==> r == Err(InvalidInput)
      ensures req.userId.Some? && req.userId.value !in users ==> r == Err(NotFound)
      ensures Known(users, req.userId) && req.courseId.None? ==> r == Err(InvalidInput)
      ensures Known(users, req.userId) && req.courseId.Some? && req.courseId.value !in courses ==> r == Err(NotFound)
      ensures (Known(users, req.userId) && Known(courses, req.courseId)
               && ExistsByUserAndCourse(old(enrollments), req.userId.value, req.courseId.value)) ==> r == Err(Duplicate)
      ensures Known(users, req.userId) && Known(courses, req.courseId)
              && !ExistsByUserAndCourse(old(enrollments), req.userId.value, req.courseId.value) ==>
                && (req.lessonId.Some? && req.lessonId.value !in lessons ==> r == Err(NotFound))
                && (!(req.lessonId.Some? && req.lessonId.value !in lessons) ==>
                      (r.Ok? <==> RequestedDate(req.enrollmentDate, now).Ok?))
      ensures r.Err? && r.error == InvalidInput ==> !Known(users, req.userId) || !Known(courses, req.courseId)
                                                    || RequestedDate(req.enrollmentDate, now).Err?
      ensures r.Ok? ==> r.value == old(nextEnrollmentId) && r.value !in old(enrollments)
                        && enrollments == old(enrollments)[r.value := Enrollment(req.userId.value, req.courseId.value,
                                                   req.lessonId, RequestedDate(req.enrollmentDate, now).value)]
      ensures r.Ok? && req.enrollmentDate.Some? && req.enrollmentDate.value != "" ==>
                FormatDate(enrollments[r.value].enrollmentDate.date) == req.enrollmentDate.value
    {
      if req.userId.None? {
        return Err(InvalidInput);
      }
      var user := req.userId.value;
      if user !in users {
        return Err(NotFound);
      }
      if req.courseId.None? {
        return Err(InvalidInput);
      }
      var course := req.courseId.value;
      if course !in courses {
        return Err(NotFound);
      }
      if ExistsByUserAndCourse(enrollments, user, course) {
        return Err(Duplicate);
      }
      if req.lessonId.Some? && req.lessonId.value !in lessons {
        return Err(NotFound);
      }
      var date := RequestedDate(req.enrollmentDate, now);
      if date.Err? {
        return Err(date.error);
      }
      var id := nextEnrollmentId;
      var row := Enrollment(user, course, req.lessonId, date.value);
      InsertKeepsPairUnique(enrollments, id, row);
      enrollments := enrollments[id := row];
      nextEnrollmentId := nextEnrollmentId + 1;
      r := Ok(id);
    }

    function GetEnrollmentById(id: Id): (r: Result<EnrollmentView>)
      requires Valid()
      reads this
      ensures r.Ok? <==> id in enrollments
      ensures r.Err? ==> r.error == NotFound
      ensures r.Ok? ==> r.value == EnrollmentDto(Tables(), id, enrollments[id])
                        && r.value.enrollmentDate == FormatDate(enrollments[id].enrollmentDate.date)
    {
      if id in enrollments then Ok(EnrollmentDto(Tables(), id, enrollments[id])) else Err(NotFound)
    }

    /** updateEnrollment: an absent user or course id keeps the stored one; the
        resulting pair may not belong to another enrollment; the lesson is set
        to the given one or cleared; an empty date keeps the stored date. */
    method UpdateEnrollment(id: Id, req: EnrollmentRequest) returns (r: Result<Enrollment>)
      requires Valid()
      modifies this`enrollments
      ensures Valid()
      ensures r.Err? ==> enrollments == old(enrollments)
      ensures id !in old(enrollments) ==> r == Err(NotFound)
      ensures id in old(enrollments) ==>
                var row := old(enrollments)[id];
                var user := req.userId.GetOr(row.user);
                var course := req.courseId.GetOr(row.course);
                var usersFound := req.userId.None? || req.userId.value in users;
                var coursesFound := req.courseId.None? || req.courseId.value in courses;
                var duplicate := ExistsByUserAndCourseAndIdNot(old(enrollments), user, course, id);
                var lessonFound := req.lessonId.None? || req.lessonId.value in lessons;
                var date := RequestedDate(req.enrollmentDate, row.enrollmentDate);
                && (!usersFound || !coursesFound ==> r == Err(NotFound))
                && (usersFound && coursesFound && duplicate ==> r == Err(Duplicate))
                && (usersFound && coursesFound && !duplicate && !lessonFound ==> r == Err(NotFound))
                && (usersFound && coursesFound && !duplicate && lessonFound && date.Err? ==> r == Err(InvalidInput))
                && (r.Ok? <==> usersFound && coursesFound && !duplicate && lessonFound && date.Ok?)
                && (r.Ok? ==> r.value == Enrollment(user, course, req.lessonId, date.value)
                              && enrollments == old(enrollments)[id := r.value])
      ensures id in old(enrollments) && req.userId.None? && req.courseId.None? ==> r != Err(Duplicate)
    {
      if id !in enrollments {
        return Err(NotFound);
      }
      var row := enrollments[id];
      OwnPairAccepted(enrollments, id);
      var user := row.user;
      var course := row.course;
      if req.userId.Some? {
        if req.userId.value !in users {
          return Err(NotFound);
        }
        user := req.userId.value;
      }
      if req.courseId.Some? {
        if req.courseId.value !in courses {
          return Err(NotFound);
        }
        course := req.courseId.value;
      }
      if ExistsByUserAndCourseAndIdNot(enrollments, user, course, id) {
        return Err(Duplicate);
      }
      if req.lessonId.Some? && req.lessonId.value !in lessons {
        return Err(NotFound);
      }
      var date := RequestedDate(req.enrollmentDate, row.enrollmentDate);
      if date.Err? {
        return Err(date.error);
      }
      var updated := Enrollment(user, course, req.lessonId, date.value);
      ReplaceKeepsPairUnique(enrollments, id, updated);
      enrollments := enrollments[id := updated];
      r := Ok(updated);
    }

    method DeleteEnrollment(id: Id) returns (r: Result<()>)
      requires Valid()
      modifies this`enrollments
      ensures Valid()
      ensures r.Ok? <==> id in old(enrollments)
      ensures r.Err? ==> r.error == NotFound
      ensures enrollments == old(enrollments) - {id}
    {
      if id !in enrollments {
        return Err(NotFound);
      }
      enrollments := enrollments - {id};
      r := Ok(());
    }

    /** checkUserEnrollment: whether the pair is enrolled; an unknown user or
        course is NotFound rather than false. */
    function CheckUserEnrollment(userId: Id, courseId: Id): (r: Result<bool>)
      reads this
      ensures r.Err? <==> userId !in users || courseId !in courses
      ensures r.Err? ==> r.error == NotFound
      ensures r.Ok? ==> (r.value <==> exists e :: e in enrollments && enrollments[e].user == userId
                                                  && enrollments[e].course == courseId)
    {
      if userId !in users || courseId !in courses then Err(NotFound)
      else Ok(ExistsByUserAndCourse(enrollments, userId, courseId))
    }

    /** getUserEnrollments: exactly the enrollments of a known user. */
    function GetUserEnrollments(userId: Id): (r: Result<map<Id, EnrollmentView>>)
      requires Valid()
      reads this
      ensures r.Ok? <==> userId in users
      ensures r.Err? ==> r.error == NotFound
      ensures r.Ok? ==> forall k :: k in r.value <==> k in enrollments && enrollments[k].user == userId
      ensures r.Ok? ==> forall k :: k in r.value ==>
                          r.value[k].userId == userId && r.value[k] == EnrollmentDto(Tables(), k, enrollments[k])
    {
      if userId !in users then Err(NotFound)
      else
        var mine := FindByUser(enrollments, userId);
        Ok(map k | k in mine :: EnrollmentDto(Tables(), k, mine[k]))
    }

    // -------------------------------------------------------------------------
    // Quizzes
    // -------------------------------------------------------------------------

    /** Deleting a quiz deletes the questions it owns. */
    method DeleteQuiz(id: Id)
      requires Valid()
      modifies this`quizzes, this`questions
      ensures Valid()
      ensures Tables() == Cascade.DeleteQuiz(old(Tables()), id)
    {
      ghost var before := Tables();
      quizzes := quizzes - {id};
      questions := map k | k in questions && questions[k].quiz != id :: questions[k];
      assert Tables() == Cascade.DeleteQuiz(before, id);
      Cascade.DeleteQuizKeepsValid(before, id);
    }

    /** Dropping a question from its quiz's list deletes the question (orphan
        removal); a question that is not on that quiz's list is left alone. */
    method DropQuestion(quiz: Id, question: Id)
      requires Valid()
      modifies this`questions
      ensures Valid()
      ensures question in old(questions) && old(questions)[question].quiz == quiz ==>
                questions == old(questions) - {question}
      ensures !(question in old(questions) && old(questions)[question].quiz == quiz) ==>
                questions == old(questions)
    {
      if question in questions && questions[question].quiz == quiz {
        questions := questions - {question};
      }
    }
  }
}
