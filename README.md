# CodeMingle in Dafny

CodeMingle is a small learning platform. It has a Spring back end, which
stores users, courses, lessons, comments, enrollments, quizzes and
questions, and a React front end, which lists, searches, sorts and edits
them. This project models the parts of both that hold the logic:

- **Back end.**
  - The controllers and their repository queries become one `Store` class
    (`store.dfy`). Each table is a `map` field, and each generated key comes
    from a counter field.
  - Every REST operation becomes a method. Its contract states:
    - the error it answers with (not found, invalid input, duplicate,
      constraint violation);
    - the whole new state of the tables;
    - the response body it returns (`views.dfy`).
  - Around the class:
    - the partial-update rules (`updates.dfy`);
    - the `CascadeType.ALL` / `orphanRemoval` deletion cascades
      (`cascade.dfy`);
    - the enrollment repository's pair queries and the unique (user, course)
      constraint (`enrollment_queries.dfy`);
    - the activity rating (`rating.dfy`);
    - the authentication endpoints (`auth.dfy`, `Store.Store.Register`,
      `Store.Store.Login`);
    - the in-memory `Quiz` object and its lesson-id accessors
      (`quiz_entity.dfy`);
    - `LocalDate` rendering and parsing (`clock.dfy`).
- **Invariant.** Every state-changing method keeps `Valid()`:
  - every reference resolves;
  - usernames and emails are unique;
  - each (user, course) pair is enrolled at most once;
  - every key lies below its table's counter.
- **Front end.**
  - The add-course and add-enrollment forms: validators, request payloads,
    and submitting and error state (`course_form.dfy`,
    `enrollment_form.dfy`).
  - The lesson, course and enrollment list pages: search filters, stable
    sorts and "load more" paging (`listing.dfy`, `lesson_list.dfy`,
    `course_list.dfy`, `enrollment_list.dfy`). The lesson page shows its
    cards under course headers and cuts each group on its own.
  - The lesson preview (`TruncateContent`, over a tag stripper) and the
    per-course grouping.
  - The dashboard's capped, rounded percentages (`dashboard.dfy`).
  - The route guard (`route_guard.dfy`).

The main properties proved:

- **Cascades.** Every delete cascade removes exactly the rows that reference
  the deleted row, directly or through a deleted parent, and keeps the
  database consistent.
- **Pair uniqueness.**
  - The enrollment create and update checks keep each (user, course) pair
    unique.
  - On a consistent table, "exists excluding self" is the same as "exists as
    another row".
  - An update that keeps its own pair is never a duplicate.
- **Round trips.**
  - Applying the same user, course, lesson or comment patch twice equals
    applying it once.
  - Date texts survive a parse–format round trip.
  - Stripping tags twice is the same as stripping them once.
- **Sorting and search.** Every list sort returns a permutation, sorted by
  the chosen key and stable. An unknown field keeps the input order. Every
  search keeps the rows that match, in list order, each as often as it occurs.
- **Enrollment form.** While the form's loaded list mirrors the table, its
  duplicate check agrees with the server's.
- **Dashboard.** Percentages stay within 0–100. With the user or course count
  they are measured against held fixed, they never fall as the activity count
  grows.

Where the behaviour is surprising, the model follows the code:

- A course stored without a description loads into the edit form as null,
  and saving it untouched throws before any check or request
  (`CourseForm.CourseFormState.Submit`).
- The course form checks the title's length before trimming, then sends the
  trimmed text. So `" ab"` is accepted and a two-character title is sent
  (`CourseForm.PaddedShortTitlePasses`).
- An update sent from the enrollment form carries no lesson, so it clears the
  stored lesson (`EnrollmentForm.AsRequest`).
- A course with no title, no description and id 0 is hidden even by an empty
  search (`CourseList.EmptySearchKeeps`).
- The lesson page cuts each course's cards at the visible count, but shows
  "Load More" whenever the whole filtered list is longer than that count. So
  the button can show while every card is on screen, and pressing it then
  reveals nothing (`LessonList.LoadMoreMayRevealNothing`). A lesson can also
  sit under two headers (`LessonList.LessonUnderTwoHeaders`).

## Model

Source paths use these prefixes:

- `codemingle-backend/src/main/java/com/example/codemingle_backend` for the back-end controllers and models;
- `login/b/...` for the authentication controller and `Course`;
- `login/f/src/components` for the front end.

| member | source | states |
|---|---|---|
| Text.TrimStart | codemingle-backend/src/main/java/com/example/codemingle_backend/controller/CommentController.java:66-67 | the result is a suffix of the input that does not start with a space, and every character dropped is a space |
| Text.TrimEnd | codemingle-backend/src/main/java/com/example/codemingle_backend/controller/CommentController.java:66-67 | the result is a prefix of the input that does not end with a space, and every character dropped is a space |
| Text.Trim | codemingle-backend/src/main/java/com/example/codemingle_backend/controller/CommentController.java:66-67 | `String.trim`: the result is no longer than the input and neither starts nor ends with a space |
| Text.TrimEmptyIffBlank | codemingle-backend/src/main/java/com/example/codemingle_backend/controller/LessonController.java:93-100 | trimming gives the empty string exactly when the text is blank |
| Text.TrimOfTrimmed | codemingle-backend/src/main/java/com/example/codemingle_backend/controller/LessonController.java:93-100 | text that neither starts nor ends with a space is left unchanged by trim |
| Text.TrimSkipsLeadingSpace | login/f/src/components/AddCourseComponent.js:15-29 | a leading space does not change the trimmed result |
| Text.TrimPadded | login/f/src/components/AddCourseComponent.js:15-29 | one space in front of already-trimmed text is all that trim removes |
| Text.TrimIdempotent | codemingle-backend/src/main/java/com/example/codemingle_backend/controller/LessonController.java:93-100 | trimming twice is the same as trimming once |
| Text.Lower | login/f/src/components/ListLessonComponent.js:53-58 | `toLowerCase` preserves the length |
| Text.Contains | login/f/src/components/ListLessonComponent.js:61-65 | `includes`: the term is a prefix of the text or of one of its suffixes (the occurrence form is ContainsIffOccurs) |
| Text.ContainsIffOccurs | login/f/src/components/ListLessonComponent.js:61-65 | `includes` holds exactly when the term occurs at some position of the text |
| Text.ContainsEmpty | login/f/src/components/ListLessonComponent.js:61-65 | every text includes the empty term |
| Text.DigitChar | login/f/src/components/ListLessonComponent.js:65 | the character of a digit is a decimal digit with that value |
| Text.NatToString | login/f/src/components/ListLessonComponent.js:65 | the decimal rendering of an id is a non-empty string of digits |
| Text.NatToStringRoundTrip | login/f/src/components/ListLessonComponent.js:65 | reading the decimal rendering back gives the number |
| Text.IntToString | login/f/src/components/ListLessonComponent.js:65 | the decimal text of an id, with a minus sign for a negative one |
| Text.StrLess | login/f/src/components/ListLessonComponent.js:162-163 | string `<`: the first differing character decides, and a proper prefix comes first |
| Text.StrLessIrreflexive | login/f/src/components/ListLessonComponent.js:162-163 | string `<` is irreflexive |
| Text.StrLessTransitive | login/f/src/components/ListLessonComponent.js:162-163 | string `<` is transitive |
| Text.StrLessTotal | login/f/src/components/ListLessonComponent.js:162-163 | two different strings are ordered one way or the other |
| Clock.Pad2 | codemingle-backend/src/main/java/com/example/codemingle_backend/controller/EnrollmentController.java:110 | two digits that spell the number |
| Clock.Pad4 | codemingle-backend/src/main/java/com/example/codemingle_backend/controller/EnrollmentController.java:110 | four digits that spell the number |
| Clock.Pad2OfDigits | codemingle-backend/src/main/java/com/example/codemingle_backend/controller/EnrollmentController.java:110 | any two digits are the padded rendering of the number they spell |
| Clock.Pad4OfDigits | codemingle-backend/src/main/java/com/example/codemingle_backend/controller/EnrollmentController.java:110 | any four digits are the padded rendering of the number they spell |
| Clock.FormatDate | codemingle-backend/src/main/java/com/example/codemingle_backend/controller/EnrollmentController.java:110 | `LocalDate.toString` gives ten characters `dddd-dd-dd` |
| Clock.ParseDate | codemingle-backend/src/main/java/com/example/codemingle_backend/controller/EnrollmentController.java:92 | `LocalDate.parse`: a date exactly for ten characters `dddd-dd-dd` naming a month 1–12 and a day that exists in that month, leap years included |
| Clock.ParseFormattedDate | codemingle-backend/src/main/java/com/example/codemingle_backend/controller/EnrollmentController.java:89-93 | parsing a rendered date gives the date back |
| Clock.FormatParsedDate | codemingle-backend/src/main/java/com/example/codemingle_backend/controller/EnrollmentController.java:89-93 | a date text that parses is exactly the rendering of the date it names |
| Clock.FormatTimestamp | codemingle-backend/src/main/java/com/example/codemingle_backend/controller/CommentController.java:45 | `yyyy-MM-dd HH:mm:ss`: nineteen characters, whose date part, for years from 1, is the date's rendering, and whose time fields spell the hour, minute and second |
| EnrollmentQueries.FindByIdWithDetails | codemingle-backend/src/main/java/com/example/codemingle_backend/repository/EnrollmentRepository.java:20-21 | the row with that id when there is one, nothing otherwise |
| EnrollmentQueries.FindByUser | codemingle-backend/src/main/java/com/example/codemingle_backend/repository/EnrollmentRepository.java:29-30 | exactly the rows of that user, unchanged |
| EnrollmentQueries.ExistsByUserAndCourse | codemingle-backend/src/main/java/com/example/codemingle_backend/repository/EnrollmentRepository.java:23-24 | some row holds that user and that course |
| EnrollmentQueries.ExistsByUserAndCourseAndIdNot | codemingle-backend/src/main/java/com/example/codemingle_backend/repository/EnrollmentRepository.java:26-27 | some row other than the given id holds that user and that course |
| EnrollmentQueries.ExcludingSelfImpliesExists | codemingle-backend/src/main/java/com/example/codemingle_backend/repository/EnrollmentRepository.java:23-27 | a pair found while excluding one id is also found without excluding it |
| EnrollmentQueries.ExcludingSelfIff | codemingle-backend/src/main/java/com/example/codemingle_backend/repository/EnrollmentRepository.java:26-27 | on a table with unique pairs, the excluding query holds exactly when the pair exists and is not the excluded row's own pair |
| EnrollmentQueries.OwnPairAccepted | codemingle-backend/src/main/java/com/example/codemingle_backend/controller/EnrollmentController.java:135-137 | on a table with unique pairs, an update that keeps its own (user, course) pair is never a duplicate |
| EnrollmentQueries.InsertKeepsPairUnique | CodeMingle-Repo/backend/src/main/java/com/example/codemingle_backend/model/Enrollment.java:25 | inserting a new row whose pair no row holds keeps pairs unique |
| EnrollmentQueries.ReplaceKeepsPairUnique | CodeMingle-Repo/backend/src/main/java/com/example/codemingle_backend/model/Enrollment.java:25 | rewriting a row with a pair that no other row holds keeps pairs unique |
| EnrollmentQueries.AtMostOnePerPair | CodeMingle-Repo/backend/src/main/java/com/example/codemingle_backend/model/Enrollment.java:25 | with unique pairs, at most one row holds a given (user, course) |
| Updates.PatchUser | codemingle-backend/src/main/java/com/example/codemingle_backend/controller/UserController.java:79-102 | each field present in the request replaces the stored one, each absent field is kept, and profile views and rating never change |
| Updates.PatchCourse | codemingle-backend/src/main/java/com/example/codemingle_backend/controller/CourseController.java:74-85 | each field present in the request replaces the stored one, and each absent field is kept |
| Updates.NonBlankTrimmed | codemingle-backend/src/main/java/com/example/codemingle_backend/controller/LessonController.java:93-100 | a text is taken exactly when it is present and not blank, and then in trimmed, non-empty form |
| Updates.PatchLesson | codemingle-backend/src/main/java/com/example/codemingle_backend/controller/LessonController.java:81-123 | a given course replaces the stored one; a non-blank title or topic replaces the stored one trimmed, while a blank one is ignored; a given content replaces the stored one as sent; createdAt never changes |
| Updates.PatchComment | codemingle-backend/src/main/java/com/example/codemingle_backend/controller/CommentController.java:116-157 | non-blank content replaces the stored content trimmed; a given user or lesson replaces the stored one; createdAt never changes |
| Updates.PatchUserIdempotent | codemingle-backend/src/main/java/com/example/codemingle_backend/controller/UserController.java:79-102 | applying the same user patch twice equals applying it once |
| Updates.PatchCourseIdempotent | codemingle-backend/src/main/java/com/example/codemingle_backend/controller/CourseController.java:70-98 | applying the same course patch twice equals applying it once |
| Updates.PatchLessonIdempotent | codemingle-backend/src/main/java/com/example/codemingle_backend/controller/LessonController.java:81-123 | applying the same lesson patch twice equals applying it once |
| Updates.PatchCommentIdempotent | codemingle-backend/src/main/java/com/example/codemingle_backend/controller/CommentController.java:116-157 | applying the same comment patch twice equals applying it once |
| Updates.BlankLessonPatchKeepsRow | codemingle-backend/src/main/java/com/example/codemingle_backend/controller/LessonController.java:93-100 | an update carrying only blank title and topic text leaves the lesson as it was |
| Updates.RequestedDate | codemingle-backend/src/main/java/com/example/codemingle_backend/controller/EnrollmentController.java:89-93 | a missing or empty date gives the fallback; otherwise the request succeeds exactly when the text parses, and the stored date renders back to that text; failure is invalid input |
| Views.LessonDto | codemingle-backend/src/main/java/com/example/codemingle_backend/controller/LessonController.java:38-49 | the course id and title are present exactly when the lesson's course exists, and they are that course's; the other fields are the lesson's |
| Views.UserDto | codemingle-backend/src/main/java/com/example/codemingle_backend/controller/UserController.java:32-41 | the user DTO: the id and every stored user column except the password |
| Views.CourseDto | codemingle-backend/src/main/java/com/example/codemingle_backend/controller/CourseController.java:58-64 | the course DTO: the id and the stored course columns |
| Views.CommentDto | codemingle-backend/src/main/java/com/example/codemingle_backend/controller/CommentController.java:100-110 | the joined names are those of the comment's own user, lesson and that lesson's course, and the timestamp is `yyyy-MM-dd HH:mm:ss` text |
| Views.EnrollmentDto | codemingle-backend/src/main/java/com/example/codemingle_backend/controller/EnrollmentController.java:103-111 | the joined names are those of the enrollment's own user and course, and the date text parses back to the stored date |
| Cascade.DeleteUser | codemingle-backend/src/main/java/com/example/codemingle_backend/model/User.java:48-54 | removes the user and exactly its enrollments and comments; everything else is unchanged |
| Cascade.DeleteLesson | codemingle-backend/src/main/java/com/example/codemingle_backend/model/Lesson.java:49-53 | removes the lesson, exactly its comments and quizzes, and those quizzes' questions; everything else is unchanged |
| Cascade.DeleteCourse | login/b/src/main/java/com/example/codemingle_backend/model/Course.java:45-51 | removes the course, its lessons and enrollments, and, through those lessons, their comments, quizzes and questions; users are unchanged |
| Cascade.DeleteQuiz | codemingle-backend/src/main/java/com/example/codemingle_backend/model/Quiz.java:50 | removes the quiz and exactly its questions; everything else is unchanged |
| Cascade.DeleteUserKeepsValid | codemingle-backend/src/main/java/com/example/codemingle_backend/model/User.java:48-54 | the user cascade leaves a consistent database without the user |
| Cascade.DeleteLessonKeepsValid | codemingle-backend/src/main/java/com/example/codemingle_backend/model/Lesson.java:49-53 | the lesson cascade leaves a consistent database without the lesson |
| Cascade.DeleteCourseKeepsValid | login/b/src/main/java/com/example/codemingle_backend/model/Course.java:45-51 | the course cascade leaves a consistent database without the course |
| Cascade.DeleteQuizKeepsValid | codemingle-backend/src/main/java/com/example/codemingle_backend/model/Quiz.java:50 | the quiz cascade leaves a consistent database without the quiz |
| Entities.Db.Valid | CodeMingle-Repo/backend/src/main/java/com/example/codemingle_backend/model/Enrollment.java:25-38 | the database invariant: usernames and emails unique; every lesson's course, every comment's user and lesson, every enrollment's user and course, every quiz's lesson and every question's quiz exist; each (user, course) pair enrolled at most once |
| Entities.PairUnique | CodeMingle-Repo/backend/src/main/java/com/example/codemingle_backend/model/Enrollment.java:25 | the unique (user, course) constraint: two enrollments with the same pair are the same row |
| Rating.Rating | codemingle-backend/src/main/java/com/example/codemingle_backend/controller/UserController.java:124-130 | the rating always lies between 3.0 and 5.0 |
| Rating.NoActivityRating | codemingle-backend/src/main/java/com/example/codemingle_backend/controller/UserController.java:128-130 | a user without activity is rated 3.0 |
| Rating.SaturatedRating | codemingle-backend/src/main/java/com/example/codemingle_backend/controller/UserController.java:128-130 | twenty or more activities give the maximum 5.0 |
| Rating.LinearRating | codemingle-backend/src/main/java/com/example/codemingle_backend/controller/UserController.java:128-130 | up to twenty activities, each adds exactly a tenth |
| Rating.RatingMonotone | codemingle-backend/src/main/java/com/example/codemingle_backend/controller/UserController.java:124-130 | more enrollments or comments never lower the rating |
| Auth.DemoLogin | login/b/src/main/java/com/example/codemingle_backend/controller/AuthController.java:36-61 | "admin" logs in as the ADMIN demo account and "user" as the USER one; any other type, including a missing one, gets a 400 |
| QuizEntity.LessonObject.constructor | codemingle-backend/src/main/java/com/example/codemingle_backend/model/Quiz.java:62 | a new Lesson object has no id |
| QuizEntity.QuizObject.constructor | codemingle-backend/src/main/java/com/example/codemingle_backend/model/Quiz.java:34-48 | a new quiz has no lesson and no title, questions are not shuffled, and the time limit is 30 minutes |
| QuizEntity.QuizObject.GetLessonId | codemingle-backend/src/main/java/com/example/codemingle_backend/model/Quiz.java:56-58 | null without a lesson; otherwise exactly the referenced lesson's id |
| QuizEntity.QuizObject.SetLessonId | codemingle-backend/src/main/java/com/example/codemingle_backend/model/Quiz.java:60-65 | afterwards the getter returns the id; an existing lesson object is kept and written through, a missing one is freshly made; the other fields are unchanged |
| QuizEntity.SetThroughSharedLesson | codemingle-backend/src/main/java/com/example/codemingle_backend/model/Quiz.java:60-65 | two quizzes sharing one Lesson object both see an id set through one of them |
| Store.DeleteCourseFits | login/b/src/main/java/com/example/codemingle_backend/model/Course.java:45-51 | the course cascade keeps the store invariant |
| Store.DeleteLessonFits | codemingle-backend/src/main/java/com/example/codemingle_backend/model/Lesson.java:49-53 | the lesson cascade keeps the store invariant |
| Store.ReplaceLessonFits | codemingle-backend/src/main/java/com/example/codemingle_backend/model/Lesson.java:33 | rewriting a lesson whose course exists keeps the store invariant |
| Store.PutCommentFits | codemingle-backend/src/main/java/com/example/codemingle_backend/controller/CommentController.java:65-94 | storing a comment whose user and lesson exist keeps the store invariant, and the comment's projection finds its joins |
| Store.Store.constructor | codemingle-backend/src/main/java/com/example/codemingle_backend/model/User.java:32-54 | a store over consistent tables satisfies the invariant and holds those tables |
| Store.UsernameTaken | login/b/src/main/java/com/example/codemingle_backend/controller/AuthController.java:111 | `findByUsername(name).isPresent()`: some stored user has the name |
| Store.EmailTaken | login/b/src/main/java/com/example/codemingle_backend/controller/AuthController.java:117 | `findByEmail(email).isPresent()`: some stored user has the email |
| Store.ClashesWithOther | codemingle-backend/src/main/java/com/example/codemingle_backend/model/User.java:32-36 | saving the user under the id would break a UNIQUE column: another row holds its username or its email |
| Store.Store.CreateUser | codemingle-backend/src/main/java/com/example/codemingle_backend/controller/UserController.java:51-59 | the insert succeeds exactly when the NOT NULL fields are given and username and email are free; then one new row is added under a fresh id; otherwise nothing changes |
| Store.Store.GetUserById | codemingle-backend/src/main/java/com/example/codemingle_backend/controller/UserController.java:63-67 | the DTO of the stored user, or not found |
| Store.Store.GetUserByUsername | codemingle-backend/src/main/java/com/example/codemingle_backend/controller/UserController.java:71-75 | found exactly when a user has that name, and then it is that user |
| Store.Store.UpdateUser | codemingle-backend/src/main/java/com/example/codemingle_backend/controller/UserController.java:79-102 | succeeds exactly when the user exists and the patched row clashes with no other user's username or email, and then the row becomes the patched row and the DTO is returned; not found for an unknown id; a constraint violation on a clash, with nothing changed |
| Store.Store.IncrementProfileViews | codemingle-backend/src/main/java/com/example/codemingle_backend/controller/UserController.java:106-114 | exactly the user's view count rises by one, and the saved user's DTO is returned |
| Store.Store.CalculateRating | codemingle-backend/src/main/java/com/example/codemingle_backend/controller/UserController.java:118-136 | stores the activity rating computed from the user's enrollments and comments, which lies between 3.0 and 5.0, and returns the DTO |
| Store.Store.DeleteUser | codemingle-backend/src/main/java/com/example/codemingle_backend/controller/UserController.java:140-148 | not found and no change for an unknown id; otherwise the tables become the user cascade of the old tables |
| Store.Store.Register | login/b/src/main/java/com/example/codemingle_backend/controller/AuthController.java:97-144 | 400 when a field is missing, the username is taken or the email is taken, in that order; otherwise 201 and exactly one new USER row, with the encoded password |
| Store.Store.Login | login/b/src/main/java/com/example/codemingle_backend/controller/AuthController.java:65-95 | 200 with the user's name exactly when authentication succeeds and the user is stored; every failure is the same 401 |
| Store.Store.CreateCourse | codemingle-backend/src/main/java/com/example/codemingle_backend/controller/CourseController.java:46-51 | succeeds exactly when a title is given, adding one new row under a fresh id; otherwise a constraint violation and no change |
| Store.Store.GetCourseById | codemingle-backend/src/main/java/com/example/codemingle_backend/controller/CourseController.java:55-66 | the DTO of the stored course, or not found |
| Store.Store.UpdateCourse | codemingle-backend/src/main/java/com/example/codemingle_backend/controller/CourseController.java:70-98 | not found for an unknown id; otherwise the row becomes the patched row |
| Store.Store.DeleteCourse | codemingle-backend/src/main/java/com/example/codemingle_backend/controller/CourseController.java:102-110 | not found and no change for an unknown id; otherwise the tables become the course cascade of the old tables |
| Store.Store.CreateLesson | codemingle-backend/src/main/java/com/example/codemingle_backend/controller/LessonController.java:52-62 | succeeds exactly when a course is named and exists and a title is given; an unknown course is not found, anything else missing is a constraint violation |
| Store.Store.GetLessonById | codemingle-backend/src/main/java/com/example/codemingle_backend/controller/LessonController.java:65-78 | the lesson's DTO joined with its course, or not found |
| Store.Store.UpdateLesson | codemingle-backend/src/main/java/com/example/codemingle_backend/controller/LessonController.java:81-123 | not found when the lesson or a named course is missing; otherwise the row becomes the patched row |
| Store.Store.LessonsByCourseId | codemingle-backend/src/main/java/com/example/codemingle_backend/controller/LessonController.java:126-137 | the DTOs of exactly the lessons of that course |
| Store.Store.DeleteLesson | codemingle-backend/src/main/java/com/example/codemingle_backend/controller/LessonController.java:140-148 | not found and no change for an unknown id; otherwise the tables become the lesson cascade of the old tables |
| Store.Store.CreateComment | codemingle-backend/src/main/java/com/example/codemingle_backend/controller/CommentController.java:65-94 | missing content or user is invalid input, an unknown user is not found, then a missing lesson is invalid and an unknown one not found; on success one new row with the trimmed content, dated now, and its DTO |
| Store.Store.GetCommentById | codemingle-backend/src/main/java/com/example/codemingle_backend/controller/CommentController.java:97-112 | the comment's DTO, with its timestamp as `yyyy-MM-dd HH:mm:ss` text, or not found |
| Store.Store.UpdateComment | codemingle-backend/src/main/java/com/example/codemingle_backend/controller/CommentController.java:116-157 | not found when the comment or a named user or lesson is missing; otherwise the row becomes the patched row |
| Store.Store.DeleteComment | codemingle-backend/src/main/java/com/example/codemingle_backend/controller/CommentController.java:161-169 | removes exactly that comment; not found when there was none |
| Store.Store.GetAllEnrollments | codemingle-backend/src/main/java/com/example/codemingle_backend/controller/EnrollmentController.java:40-53 | one DTO per stored enrollment, joined with its user and course |
| Store.Store.CreateEnrollment | codemingle-backend/src/main/java/com/example/codemingle_backend/controller/EnrollmentController.java:66-97 | checks in the controller's order: user, course, duplicate pair, lesson, date; on success one new row whose date renders back to the text sent; any failure changes nothing |
| Store.Store.GetEnrollmentById | codemingle-backend/src/main/java/com/example/codemingle_backend/controller/EnrollmentController.java:99-114 | the enrollment's DTO, with its date as `yyyy-MM-dd`, or not found |
| Store.Store.UpdateEnrollment | codemingle-backend/src/main/java/com/example/codemingle_backend/controller/EnrollmentController.java:116-158 | not found for an unknown row, user or course; a duplicate when another row holds the resulting pair; then lesson and date; on success the row is rewritten with the lesson sent, which may be none; an update naming no user or course is never a duplicate |
| Store.Store.DeleteEnrollment | codemingle-backend/src/main/java/com/example/codemingle_backend/controller/EnrollmentController.java:160-171 | removes exactly that enrollment; not found when there was none |
| Store.Store.CheckUserEnrollment | codemingle-backend/src/main/java/com/example/codemingle_backend/controller/EnrollmentController.java:173-184 | not found when the user or the course is missing; otherwise true exactly when that pair is enrolled |
| Store.Store.GetUserEnrollments | codemingle-backend/src/main/java/com/example/codemingle_backend/controller/EnrollmentController.java:186-205 | not found for an unknown user; otherwise the DTOs of exactly that user's enrollments |
| Store.Store.DeleteQuiz | codemingle-backend/src/main/java/com/example/codemingle_backend/model/Quiz.java:50 | the tables become the quiz cascade of the old tables |
| Store.Store.DropQuestion | codemingle-backend/src/main/java/com/example/codemingle_backend/model/Quiz.java:50 | orphan removal: a question dropped from its own quiz's list is deleted, and any other request changes nothing |
| Listing.KeyLess | login/f/src/components/ListLessonComponent.js:162-163 | the comparator's `<`: numbers by value, texts by StrLess, and a number before a text |
| Listing.KeyLessIrreflexive | login/f/src/components/ListLessonComponent.js:162-164 | the comparator's key order is irreflexive |
| Listing.KeyLessTransitive | login/f/src/components/ListLessonComponent.js:162-164 | the key order is transitive |
| Listing.KeyLessTotal | login/f/src/components/ListLessonComponent.js:162-164 | two different keys are ordered one way or the other |
| Listing.Compare | login/f/src/components/ListLessonComponent.js:139-166 | the comparator answers -1, 0 or 1; 0 for an unknown field; 0 on a known field exactly when the keys are equal |
| Listing.CompareFlip | login/f/src/components/ListLessonComponent.js:162-164 | swapping the arguments negates the comparison |
| Listing.CompareNotAfter | login/f/src/components/ListLessonComponent.js:162-164 | "not after" in the comparator is "not less" in key order for the chosen direction |
| Listing.KeyNotAfterTransitive | login/f/src/components/ListLessonComponent.js:162-164 | "not less" in key order is transitive |
| Listing.CompareTransitive | login/f/src/components/ListLessonComponent.js:139-166 | the comparator's "not after" is transitive, so it is a consistent comparator |
| Listing.Insert | login/f/src/components/ListLessonComponent.js:140 | inserting adds exactly the one element |
| Listing.SortBy | login/f/src/components/ListLessonComponent.js:140 | the sort returns a permutation of the list |
| Listing.ConsSorted | login/f/src/components/ListLessonComponent.js:140 | an element that leads a sorted list gives a sorted list |
| Listing.SortedTail | login/f/src/components/ListLessonComponent.js:140 | the tail of a sorted list is sorted and led by its head |
| Listing.InsertSorted | login/f/src/components/ListLessonComponent.js:140 | inserting into a sorted list keeps it sorted |
| Listing.SortBySorted | login/f/src/components/ListLessonComponent.js:139-166 | the sort's result is ordered by the comparator |
| Listing.UnknownFieldKeepsOrder | login/f/src/components/ListLessonComponent.js:159-160 | a comparator that always answers 0 leaves the list as it was |
| Listing.WithKey | login/f/src/components/ListLessonComponent.js:140 | the elements with a given key form a sub-list |
| Listing.InsertWithKey | login/f/src/components/ListLessonComponent.js:140 | insertion puts an element before every element with an equal key, so each key's rows keep their input order once the insertion sort has run |
| Listing.SortByStable | login/f/src/components/ListLessonComponent.js:140 | stability: elements with equal keys keep their input order |
| Listing.Filter | login/f/src/components/ListLessonComponent.js:55-67 | keeps exactly the elements that pass, and never grows the list |
| Listing.FilterAppend | login/f/src/components/ListLessonComponent.js:55-67 | filtering works row by row: the rows kept from a concatenation are the rows kept from each part, in order, and one row is kept exactly when it passes, so order and repeats are those of the input |
| Listing.FilterAllPass | login/f/src/components/ListLessonComponent.js:55-67 | when every element passes, the list is returned unchanged |
| Listing.FindFirst | login/f/src/components/ListEnrollmentComponent.js:33-34 | `find`: nothing exactly when no element passes; otherwise the first element that does |
| Listing.RowsOf | login/f/src/components/ListCourseComponent.js:65-70 | a JSON array gives its items; any other body gives an empty list |
| Listing.SearchBox.constructor | login/f/src/components/ListLessonComponent.js:15-19 | an empty term, the URL's search parameter, and ten visible rows |
| Listing.SearchBox.EffectiveTerm | login/f/src/components/ListLessonComponent.js:53 | the typed term when there is one, else the URL's term, else empty |
| Listing.SearchBox.ChangeSearch | login/f/src/components/ListLessonComponent.js:124-133 | stores the term, resets paging to ten rows, and, when asked, writes the term to the URL or clears it there if it is empty |
| Listing.SearchBox.AdoptUrlSearch | login/f/src/components/ListLessonComponent.js:46-50 | an empty term takes a non-empty URL term; otherwise the term is kept |
| Listing.SearchBox.LoadMore | login/f/src/components/ListLessonComponent.js:135-137 | the visible count rises by ten |
| Listing.SearchBox.Visible | login/f/src/components/ListCourseComponent.js:227 | the first rows of the list, up to the visible count |
| Listing.SearchBox.ShowsLoadMore | login/f/src/components/ListCourseComponent.js:282 | the button shows exactly when rows are hidden |
| LessonList.LessonMatches | login/f/src/components/ListLessonComponent.js:55-67 | the lowercased term occurs in the lowercased title, topic or content, or the term occurs in the decimal text of a non-zero id |
| LessonList.FilterLessons | login/f/src/components/ListLessonComponent.js:52-69 | keeps exactly the lessons whose title, topic or content holds the lowercased term, or whose non-zero id holds it |
| LessonList.FilterLessonsAppend | login/f/src/components/ListLessonComponent.js:55-67 | the search keeps the lessons in list order: the lessons kept from two lists are those kept from each, in order, and one lesson is kept exactly when it matches |
| LessonList.EmptySearchKeepsAll | login/f/src/components/ListLessonComponent.js:52-69 | an empty term keeps every lesson, in order |
| LessonList.LessonKey | login/f/src/components/ListLessonComponent.js:142-159 | lessonId by number; title, topic and courseTitle by text, a missing one as '' |
| LessonList.OrderingOf | login/f/src/components/ListLessonComponent.js:139-166 | a known field gives a key order, ascending exactly for 'asc'; an unknown field gives none |
| LessonList.SortLessons | login/f/src/components/ListLessonComponent.js:139-166 | a permutation sorted by the field and direction, stable, and the input itself for an unknown field |
| LessonList.ShownLessons | login/f/src/components/ListLessonComponent.js:52-69 | the stored list is a permutation of the matching lessons, sorted by the chosen field and direction, with lessons of equal key in their list order; it holds exactly the lessons that match the effective term |
| LessonList.CloseAt | login/f/src/components/ListLessonComponent.js:120 | the position of the first '>' |
| LessonList.StripTags | login/f/src/components/ListLessonComponent.js:120 | removing tags never lengthens the text |
| LessonList.StripTagsAddsNoClose | login/f/src/components/ListLessonComponent.js:120 | stripping introduces no '>' |
| LessonList.StripTagsLeavesNoTag | login/f/src/components/ListLessonComponent.js:120 | no tag survives stripping |
| LessonList.StripTagsKeepsTagFree | login/f/src/components/ListLessonComponent.js:120 | text without tags is left unchanged |
| LessonList.StripTagsIdempotent | login/f/src/components/ListLessonComponent.js:120 | stripping twice is the same as stripping once |
| LessonList.TruncateContent | login/f/src/components/ListLessonComponent.js:118-122 | a placeholder for missing or empty content; the stripped text when it fits; otherwise its first `maxLength` characters followed by '...' |
| LessonList.PreviewBounded | login/f/src/components/ListLessonComponent.js:118-122 | a preview is at most `maxLength` + 3 characters and holds no tag |
| LessonList.LessonsByCourse | login/f/src/components/ListLessonComponent.js:184-187 | one entry per loaded course, holding exactly that course's lessons |
| LessonList.LessonsByCourseAppend | login/f/src/components/ListLessonComponent.js:184-187 | each course's lessons keep their list order: grouping two lists gives, per course, the lessons from each in order, and one lesson goes to exactly its own course |
| LessonList.InGroup | login/f/src/components/ListLessonComponent.js:320 | a lesson is under a course header when its course id is the course's or its non-empty course title equals the course's title |
| LessonList.CourseCards | login/f/src/components/ListLessonComponent.js:319-331 | the cards under one course header: the shown lessons whose course id is the course's, or whose non-empty course title is the course's title, in list order, the first visible-count of them |
| LessonList.CourseCardsGrow | login/f/src/components/ListLessonComponent.js:331 | a larger visible count only adds cards at the end of each group |
| LessonList.LoadMoreMayRevealNothing | login/f/src/components/ListLessonComponent.js:319-373 | two courses with six lessons each: all twelve cards show at ten visible, yet the button, which compares the whole filtered list with the visible count, shows, and twenty visible changes no group |
| LessonList.LessonUnderTwoHeaders | login/f/src/components/ListLessonComponent.js:320 | a lesson whose course id names one course and whose course title names another is shown under both headers |
| LessonList.UnloadedCourseNeverShown | login/f/src/components/ListLessonComponent.js:319-321 | a lesson that matches no loaded course is under no header |
| CourseList.CourseMatches | login/f/src/components/ListCourseComponent.js:34-41 | the lowercased term occurs in a present title or description, or the raw term in the decimal text of a non-zero id |
| CourseList.FilterCourses | login/f/src/components/ListCourseComponent.js:34-41 | keeps exactly the courses whose title or description holds the lowercased term, or whose non-zero id holds the term as typed |
| CourseList.FilterCoursesAppend | login/f/src/components/ListCourseComponent.js:34-41 | the search keeps the courses in list order: the courses kept from two lists are those kept from each, in order, and one course is kept exactly when it matches |
| CourseList.EmptySearchKeeps | login/f/src/components/ListCourseComponent.js:34-41 | an empty term keeps exactly the courses with a title, a description or a non-zero id |
| CourseList.CourseKey | login/f/src/components/ListCourseComponent.js:135-152 | courseId by number, title and description by text with '' for a missing one, createdAt by time with a missing one as the epoch |
| CourseList.CourseOrdering | login/f/src/components/ListCourseComponent.js:132-159 | a known field gives a key order, ascending exactly for 'asc'; an unknown field gives none |
| CourseList.SortCourses | login/f/src/components/ListCourseComponent.js:132-159 | a permutation sorted by the field and direction, stable, and the input itself for an unknown field |
| CourseList.FetchLessons | login/f/src/components/ListCourseComponent.js:77-95 | without a truthy course id the lessons are cleared; with one they are requested for that id |
| CourseList.LessonsAfterFetch | login/f/src/components/ListCourseComponent.js:77-95 | the fetched rows, or none without a course or after a failure |
| CourseList.CoursesAfterLoad | login/f/src/components/ListCourseComponent.js:52-75 | an array replaces the list, any other body empties it, and a failure keeps it |
| EnrollmentList.UserOf | login/f/src/components/ListEnrollmentComponent.js:33 | the loaded user with the enrollment's user id, or none exactly when no loaded user has it |
| EnrollmentList.CourseOf | login/f/src/components/ListEnrollmentComponent.js:34 | the loaded course with the enrollment's course id, or none exactly when no loaded course has it |
| EnrollmentList.EnrollmentMatches | login/f/src/components/ListEnrollmentComponent.js:31-42 | the looked-up username or course title holds the term case-insensitively, or the looked-up course's non-zero id holds the raw term |
| EnrollmentList.FilterEnrollments | login/f/src/components/ListEnrollmentComponent.js:31-42 | keeps exactly the enrollments whose user's name or course's title holds the term, case-insensitively, or whose course's non-zero id holds it |
| EnrollmentList.FilterEnrollmentsAppend | login/f/src/components/ListEnrollmentComponent.js:31-42 | the search keeps the enrollments in list order: those kept from two lists are those kept from each, in order, and one enrollment is kept exactly when it matches |
| EnrollmentList.UnresolvedNeverShown | login/f/src/components/ListEnrollmentComponent.js:31-42 | an enrollment whose user and course cannot be looked up is never shown |
| EnrollmentList.EnrollmentKey | login/f/src/components/ListEnrollmentComponent.js:119-144 | the ids by number with a missing one as 0, the looked-up username and course title by text with '' when not found, the date by its text |
| EnrollmentList.EnrollmentOrdering | login/f/src/components/ListEnrollmentComponent.js:116-151 | a known field gives a key order, ascending exactly for 'asc'; an unknown field gives none |
| EnrollmentList.SortEnrollments | login/f/src/components/ListEnrollmentComponent.js:116-151 | a permutation sorted by the field and direction, stable, and the input itself for an unknown field |
| EnrollmentList.EnrollmentWithId | login/f/src/components/ListEnrollmentComponent.js:44-53 | the first loaded enrollment with the id, or none exactly when there is no such enrollment |
| EnrollmentList.Selection.constructor | login/f/src/components/ListEnrollmentComponent.js:44-53 | nothing is selected and the modal is closed |
| EnrollmentList.Selection.SelectionEffect | login/f/src/components/ListEnrollmentComponent.js:44-53 | the modal opens exactly for a truthy id and shows the enrollment with that id; otherwise the selection is cleared |
| EnrollmentList.DeleteRequest | login/f/src/components/ListEnrollmentComponent.js:95-105 | a delete of that enrollment is sent exactly when it is confirmed |
| CourseForm.FieldError | login/f/src/components/AddCourseComponent.js:17-26 | one field's message: "required" when blank after trimming, else "too short" when its untrimmed length is below the minimum, else none |
| CourseForm.ValidateCourse | login/f/src/components/AddCourseComponent.js:15-29 | only title and description errors can be raised |
| CourseForm.PayloadOf | login/f/src/components/AddCourseComponent.js:39 | the body sent carries the trimmed title and description |
| CourseForm.FieldErrorRule | login/f/src/components/AddCourseComponent.js:15-29 | a field is refused exactly when it is blank or, untrimmed, shorter than its minimum; the message says which |
| CourseForm.ValidateCourseRules | login/f/src/components/AddCourseComponent.js:15-29 | the title is refused exactly when it is blank or shorter than 3 characters, and the description exactly when blank or shorter than 10, each with the right message |
| CourseForm.AcceptedTitleNotEmpty | login/f/src/components/AddCourseComponent.js:15-29 | an accepted title has at least 3 characters and a non-empty trimmed form |
| CourseForm.PaddedShortTitlePasses | login/f/src/components/AddCourseComponent.js:15-39 | " ab" is accepted although the title sent is two characters long |
| CourseForm.TrimPaddedTitle | login/f/src/components/AddCourseComponent.js:39 | trimming " ab" gives "ab" |
| CourseForm.CourseFormState.constructor | login/f/src/components/AddCourseComponent.js:8-11 | empty title and description, no errors, not submitting |
| CourseForm.CourseFormState.LoadCourse | login/f/src/components/AddCourseComponent.js:56-60 | the fetched title and description are copied as they come, a missing description included |
| CourseForm.CourseFormState.EditTitle | login/f/src/components/AddCourseComponent.js:130 | typing sets the title |
| CourseForm.CourseFormState.EditDescription | login/f/src/components/AddCourseComponent.js:158 | typing sets the description to a text |
| CourseForm.CourseFormState.Submit | login/f/src/components/AddCourseComponent.js:15-43 | a missing description throws and changes nothing; otherwise the errors become the validator's, and a request goes out exactly when there are none, carrying the trimmed fields, as an update exactly when the route has an id |
| CourseForm.CourseFormState.Settle | login/f/src/components/AddCourseComponent.js:45-53 | submitting ends; a failure replaces the errors with the save message |
| EnrollmentForm.FoundIffLoadedPair | login/f/src/components/AddEnrollmentComponent.js:37-42 | `find` over the pair succeeds exactly when a loaded enrollment has that pair |
| EnrollmentForm.Chosen | login/f/src/components/AddEnrollmentComponent.js:24-30 | an id counts as selected when present and positive |
| EnrollmentForm.ValidateEnrollment | login/f/src/components/AddEnrollmentComponent.js:21-46 | each error is raised exactly when its rule is broken: unselected or non-positive user or course, empty date, and, only when creating, a pair already loaded; each has its message |
| EnrollmentForm.MirroredPair | login/f/src/components/AddEnrollmentComponent.js:37-42 | while the loaded list mirrors the table, a pair is loaded exactly when it is stored |
| EnrollmentForm.DuplicateAgreesWithServer | login/f/src/components/AddEnrollmentComponent.js:37-42 | while the loaded list mirrors the table, the form reports a duplicate exactly when the server's existence query holds |
| EnrollmentForm.AsRequest | login/f/src/components/AddEnrollmentComponent.js:57-61 | the server reads the payload with no lesson, so an update clears the stored lesson |
| EnrollmentForm.AcceptedFormIsComplete | login/f/src/components/AddEnrollmentComponent.js:21-46 | an accepted form has positive user and course ids and a date, and, when creating, a pair that is not loaded |
| EnrollmentForm.EnrollmentFormState.constructor | login/f/src/components/AddEnrollmentComponent.js:10-17 | nothing selected, today's date, no errors |
| EnrollmentForm.EnrollmentFormState.LoadForUpdate | login/f/src/components/AddEnrollmentComponent.js:80-90 | a missing or zero id becomes no selection, and a missing or empty date becomes today's |
| EnrollmentForm.EnrollmentFormState.Submit | login/f/src/components/AddEnrollmentComponent.js:48-65 | the errors become the validator's; a request goes out exactly when there are none, carrying the three fields, as an update exactly when the route has an id |
| EnrollmentForm.EnrollmentFormState.Settle | login/f/src/components/AddEnrollmentComponent.js:67-77 | submitting ends; a failure that came with a response replaces the errors with the save message |
| Dashboard.RoundDiv | login/f/src/components/DashboardComponent.js:70-73 | `Math.round` of a quotient: the nearest integer, with halves rounded up |
| Dashboard.Rate | login/f/src/components/DashboardComponent.js:70-73 | a percentage in 0–100: 0 with no base, 100 at or above the target, 0 for no activity |
| Dashboard.RoundDivBounds | login/f/src/components/DashboardComponent.js:70-73 | a count at the target rounds to at least 100, and a zero count to 0 |
| Dashboard.RateMonotone | login/f/src/components/DashboardComponent.js:70-73 | more activity never lowers a percentage |
| Dashboard.Total | login/f/src/components/DashboardComponent.js:62-67 | a response's row count, 0 when the body has no length |
| Dashboard.StatsFor | login/f/src/components/DashboardComponent.js:55-59 | the headline numbers are the user, course and lesson counts |
| Dashboard.CardsFor | login/f/src/components/DashboardComponent.js:75-100 | each card counts its table and has progress in 0–100; users' progress is the capped count; with no courses or no users the dependent progresses are 0 |
| Dashboard.UsersProgress | login/f/src/components/DashboardComponent.js:78 | the users card shows the user count, capped at 100 |
| Dashboard.RoundDivExact | login/f/src/components/DashboardComponent.js:78 | `n / 100 * 100` rounds back to n |
| Dashboard.DashboardState.constructor | login/f/src/components/DashboardComponent.js:20-30 | zero stats and cards, loading |
| Dashboard.DashboardState.FetchDashboardData | login/f/src/components/DashboardComponent.js:33-117 | after the fetch, loading is over; a failure resets everything to 0, a success stores the stats and cards of the response lengths, all progress in 0–100 |
| RouteGuard.Guard | login/f/src/components/ProtectedRoute.js:5-71 | a spinner exactly while loading; a redirect to the login page, remembering the location, exactly when not authenticated; access denied exactly for a non-admin on an admin page; otherwise the children |
| RouteGuard.AbsentPropMeansFalse | login/f/src/components/ProtectedRoute.js:5 | omitting `requireAdmin` behaves as `false` |

## Left out

- Tokens, password hashing and authentication are parameters.
  - The JWT text is not modelled.
  - The `PasswordEncoder` is the function `encode`.
  - The `AuthenticationManager`'s verdict is the boolean `authenticated` of `Store.Store.Login`.
- The clock is a parameter.
  - `LocalDateTime.now()` is the `now` argument.
  - The date the enrollment form starts with is `today`, which stands for the UTC date given by `toISOString`.
- Identity keys come from one counter per table.
  - A new row gets the next key of its table.
  - Ids sent in request bodies are not modelled.
  - Keys are unbounded; there is no `Long` overflow.
- `profileViews` overflow is not modelled: the count is an unbounded natural number.
- `Rating.Rating` computes over exact reals, not IEEE doubles. `(e + c) * 0.1` in binary floating point can differ from the exact tenth in the last bit. The model states the exact value.
- `Dashboard.RoundDiv` and `Dashboard.Rate` compute `Math.round` over exact rationals rather than JavaScript doubles.
- `Text.Lower` lowercases ASCII letters only. JavaScript's `toLowerCase` also maps other Unicode letters.
- The regular expression `/<[^>]*>/g` is modelled by the hand-written `LessonList.StripTags`, not by a regex engine.
- `Clock.FormatDate` renders only years 0000–9999. Java's signed and expanded years outside that range are not modelled.
- `Store.Store.CreateComment` does not state the `yyyy-MM-dd HH:mm:ss` text of the new comment's createdAt directly. It states that the response is the comment's DTO, and the text follows from that DTO's definition.
- Store.Store.DeleteLesson assumes that an enrollment pointing at the lesson does not block the delete. The enrollment's nullable `lesson_id` join column is not cascaded, and the model leaves such references in place. If the database enforces that column as a foreign key, the delete fails instead and changes nothing; the model does not capture that failure, and the code alone does not settle which of the two happens.
- Store.Store.DeleteCourse makes the same assumption for every enrollment, of this course or another, that points at a lesson of the deleted course.
- Store.Store.CreateUser: `User.java` declares no `profileViews` or `rating` field, while the controller reads and writes both. The model assumes both columns exist and that a new user starts with 0 views and a 0.0 rating. If they were nullable wrapper fields left null, incrementing the views would fail instead of giving 1.
- Store.Store.Register makes the same assumption about a registered user's views and rating.
- Store.Store.IncrementProfileViews assumes the stored view count is a number, never null.
- CourseForm.ValidateCourse counts lengths in characters (Unicode scalar values), while JavaScript's `.length` counts UTF-16 code units. A title such as "😀a" is 3 units long in the browser and passes the 3-character rule; in the model it is 2 characters long and is refused as too short.
- LessonList.TruncateContent cuts after `maxLength` characters, while `substring` cuts after `maxLength` UTF-16 code units. In text with characters above U+FFFF the cut falls at a different place.
- EnrollmentList.SortEnrollments orders enrollment dates by their text, while the page compares the parsed `Date` values. The two orders agree on well-formed `yyyy-MM-dd` texts, but the model does not prove that.
- Listing.KeyLess compares texts character by character (`Text.StrLess`), while JavaScript's `<` compares UTF-16 code units. The two orders differ between characters above U+FFFF and those in U+E000–U+FFFF.
- Quiz and question creation, update and their endpoints are not part of this model. Only the ownership cascades and the `Quiz` lesson-id accessors are.
- The list endpoints for users, courses, lessons and comments are left out; they return their tables unchanged. Only the enrollment list, with its joined DTO, is modelled.
- HTTP status plumbing is reduced to an error kind, and the back end's error message texts are not modelled, except those of the authentication endpoints. Their status codes are kept.
- Concurrency is not modelled.
  - Every request runs alone.
  - The check-then-insert races of the duplicate checks, and the database's unique constraint as a last line of defence under them, are out of scope.
- `Comment.java` and `Question.java` are not part of this model. Their fields are taken from the controllers and from the quiz's questions list.
- The lesson list page's selection effect and its acceptance of a `data.lessons` wrapper around the lesson array are not modelled.
- The forms' data-loading error states are not modelled, and neither is the rendering of any page.
