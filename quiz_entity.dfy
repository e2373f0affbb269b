/** The Quiz entity object as the application sees it in memory: it refers to
    a Lesson object, and its lesson-id accessors go through that reference.
    Setting the lesson id rewrites the referenced Lesson object in place, so
    every other holder of the same Lesson object sees the new id. */
module QuizEntity {
  import opened Common

  /** The part of a Lesson object the quiz accessors touch: its id, null in
      a freshly constructed Lesson. */
  class LessonObject {
    var lessonId: Option<Id>

    constructor ()
      ensures lessonId == None
    {
      lessonId := None;
    }
  }

  const DefaultTimeLimitMinutes: int := 30

  class QuizObject {
    var lesson: LessonObject?
    var title: Option<string>
    var description: Option<string>
    var shuffleQuestions: bool
    var timeLimitMinutes: int

    /** A new quiz: no lesson and no title yet, questions not shuffled, a
        30-minute limit. */
    constructor ()
      ensures lesson == null && title == None && description == None
      ensures !shuffleQuestions && timeLimitMinutes == DefaultTimeLimitMinutes
    {
      lesson := null;
      title := None;
      description := None;
      shuffleQuestions := false;
      timeLimitMinutes := DefaultTimeLimitMinutes;
    }

    /** The id of the referenced lesson; null when there is no lesson. */
    function GetLessonId(): (r: Option<Id>)
      reads this, lesson
      ensures lesson == null ==> r == None
      ensures lesson != null ==> r == lesson.lessonId
    {
      if lesson == null then None else lesson.lessonId
    }

    /** Without a lesson, a new Lesson object is made first; then the id is
        written into the referenced Lesson object itself, never into a
        replacement. The quiz's own columns do not change. */
    method SetLessonId(id: Option<Id>)
      modifies this, lesson
      ensures GetLessonId() == id
      ensures old(lesson) != null ==> lesson == old(lesson)
      ensures old(lesson) == null ==> fresh(lesson)
      ensures title == old(title) && description == old(description)
      ensures shuffleQuestions == old(shuffleQuestions) && timeLimitMinutes == old(timeLimitMinutes)
    {
      if lesson == null {
        lesson := new LessonObject();
      }
      lesson.lessonId := id;
    }
  }

  /** Two quizzes that share one Lesson object: setting the lesson id through
      either changes what both report. */
  method SetThroughSharedLesson(a: QuizObject, b: QuizObject, id: Option<Id>)
    requires a != b && a.lesson != null && a.lesson == b.lesson
    modifies a, a.lesson
    ensures a.GetLessonId() == id && b.GetLessonId() == id
    ensures b.lesson == old(b.lesson)
  {
    a.SetLessonId(id);
  }
}
