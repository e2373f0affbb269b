/** Deletion with `CascadeType.ALL` (and `orphanRemoval` for questions): removing
    a row removes the rows it owns, and through them the rows those own. */
module Cascade {
  import opened Common
  import opened Entities

  /** Lesson `l` exists and belongs to course `c`. */
  predicate LessonOf(db: Db, l: Id, c: Id) {
    l in db.lessons && db.lessons[l].course == c
  }

  /** Quiz `q` exists and belongs to a lesson satisfying `LessonOf(db, _, c)`. */
  predicate QuizOfCourse(db: Db, q: Id, c: Id) {
    q in db.quizzes && LessonOf(db, db.quizzes[q].lesson, c)
  }

  /** Quiz `q` exists and belongs to lesson `l`. */
  predicate QuizOf(db: Db, q: Id, l: Id) {
    q in db.quizzes && db.quizzes[q].lesson == l
  }

  /** Deleting user `u` deletes its enrollments and its comments; every other
      row stays as it was. */
  function DeleteUser(db: Db, u: Id): (r: Db)
    ensures r.users.Keys == db.users.Keys - {u} && forall k :: k in r.users ==> r.users[k] == db.users[k]
    ensures forall e :: e in r.enrollments <==> e in db.enrollments && db.enrollments[e].user != u
    ensures forall c :: c in r.comments <==> c in db.comments && db.comments[c].user != u
    ensures forall e :: e in r.enrollments ==> r.enrollments[e] == db.enrollments[e]
    ensures forall c :: c in r.comments ==> r.comments[c] == db.comments[c]
    ensures r.courses == db.courses && r.lessons == db.lessons
    ensures r.quizzes == db.quizzes && r.questions == db.questions
  {
    db.(users := db.users - {u},
        enrollments := map e | e in db.enrollments && db.enrollments[e].user != u :: db.enrollments[e],
        comments := map c | c in db.comments && db.comments[c].user != u :: db.comments[c])
  }

  /** Deleting lesson `l` deletes its comments and its quizzes, and the
      questions of those quizzes. Enrollments are left as they are. */
  function DeleteLesson(db: Db, l: Id): (r: Db)
    ensures r.lessons.Keys == db.lessons.Keys - {l} && forall k :: k in r.lessons ==> r.lessons[k] == db.lessons[k]
    ensures forall c :: c in r.comments <==> c in db.comments && db.comments[c].lesson != l
    ensures forall q :: q in r.quizzes <==> q in db.quizzes && db.quizzes[q].lesson != l
    ensures forall q :: q in r.questions <==> q in db.questions && !QuizOf(db, db.questions[q].quiz, l)
    ensures forall c :: c in r.comments ==> r.comments[c] == db.comments[c]
    ensures forall q :: q in r.quizzes ==> r.quizzes[q] == db.quizzes[q]
    ensures forall q :: q in r.questions ==> r.questions[q] == db.questions[q]
    ensures r.users == db.users && r.courses == db.courses && r.enrollments == db.enrollments
  {
    db.(lessons := db.lessons - {l},
        comments := map c | c in db.comments && db.comments[c].lesson != l :: db.comments[c],
        quizzes := map q | q in db.quizzes && db.quizzes[q].lesson != l :: db.quizzes[q],
        questions := map q | q in db.questions && !QuizOf(db, db.questions[q].quiz, l) :: db.questions[q])
  }

  /** Deleting course `c` deletes its lessons and its enrollments, and through
      the lessons their comments, their quizzes and those quizzes' questions. */
  function DeleteCourse(db: Db, c: Id): (r: Db)
    ensures r.courses.Keys == db.courses.Keys - {c} && forall k :: k in r.courses ==> r.courses[k] == db.courses[k]
    ensures forall l :: l in r.lessons <==> l in db.lessons && db.lessons[l].course != c
    ensures forall e :: e in r.enrollments <==> e in db.enrollments && db.enrollments[e].course != c
    ensures forall m :: m in r.comments <==> m in db.comments && !LessonOf(db, db.comments[m].lesson, c)
    ensures forall q :: q in r.quizzes <==> q in db.quizzes && !LessonOf(db, db.quizzes[q].lesson, c)
    ensures forall q :: q in r.questions <==> q in db.questions && !QuizOfCourse(db, db.questions[q].quiz, c)
    ensures forall l :: l in r.lessons ==> r.lessons[l] == db.lessons[l]
    ensures forall e :: e in r.enrollments ==> r.enrollments[e] == db.enrollments[e]
    ensures forall m :: m in r.comments ==> r.comments[m] == db.comments[m]
    ensures forall q :: q in r.quizzes ==> r.quizzes[q] == db.quizzes[q]
    ensures forall q :: q in r.questions ==> r.questions[q] == db.questions[q]
    ensures r.users == db.users
  {
    db.(courses := db.courses - {c},
        lessons := map l | l in db.lessons && db.lessons[l].course != c :: db.lessons[l],
        enrollments := map e | e in db.enrollments && db.enrollments[e].course != c :: db.enrollments[e],
        comments := map m | m in db.comments && !LessonOf(db, db.comments[m].lesson, c) :: db.comments[m],
        quizzes := map q | q in db.quizzes && !LessonOf(db, db.quizzes[q].lesson, c) :: db.quizzes[q],
        questions := map q | q in db.questions && !QuizOfCourse(db, db.questions[q].quiz, c) :: db.questions[q])
  }

  /** Deleting quiz `q` deletes its questions. */
  function DeleteQuiz(db: Db, q: Id): (r: Db)
    ensures r.quizzes.Keys == db.quizzes.Keys - {q} && forall k :: k in r.quizzes ==> r.quizzes[k] == db.quizzes[k]
    ensures forall k :: k in r.questions <==> k in db.questions && db.questions[k].quiz != q
    ensures forall k :: k in r.questions ==> r.questions[k] == db.questions[k]
    ensures r.users == db.users && r.courses == db.courses && r.lessons == db.lessons
    ensures r.comments == db.comments && r.enrollments == db.enrollments
  {
    db.(quizzes := db.quizzes - {q},
        questions := map k | k in db.questions && db.questions[k].quiz != q :: db.questions[k])
  }

  // ---------------------------------------------------------------------------
  // Every cascade keeps the database consistent: no row is left pointing at a
  // deleted one, and the uniqueness constraints still hold.
  // ---------------------------------------------------------------------------

  lemma DeleteUserKeepsValid(db: Db, u: Id)
    requires db.Valid()
    ensures DeleteUser(db, u).Valid() && u !in DeleteUser(db, u).users
  {
    var r := DeleteUser(db, u);
    assert r.UsersUnique();
    assert PairUnique(r.enrollments);
  }

  lemma DeleteLessonKeepsValid(db: Db, l: Id)
    requires db.Valid()
    ensures DeleteLesson(db, l).Valid() && l !in DeleteLesson(db, l).lessons
  {
    var r := DeleteLesson(db, l);
    forall q | q in r.questions ensures r.questions[q].quiz in r.quizzes {
      assert db.questions[q].quiz in db.quizzes;
    }
  }

  lemma DeleteCourseKeepsValid(db: Db, c: Id)
    requires db.Valid()
    ensures DeleteCourse(db, c).Valid() && c !in DeleteCourse(db, c).courses
  {
    var r := DeleteCourse(db, c);
    forall m | m in r.comments ensures r.comments[m].lesson in r.lessons {
      assert db.comments[m].lesson in db.lessons;
    }
    forall q | q in r.quizzes ensures r.quizzes[q].lesson in r.lessons {
      assert db.quizzes[q].lesson in db.lessons;
    }
    forall q | q in r.questions ensures r.questions[q].quiz in r.quizzes {
      assert db.questions[q].quiz in db.quizzes;
    }
    assert PairUnique(r.enrollments);
  }

  lemma DeleteQuizKeepsValid(db: Db, q: Id)
    requires db.Valid()
    ensures DeleteQuiz(db, q).Valid() && q !in DeleteQuiz(db, q).quizzes
  {
  }
}
