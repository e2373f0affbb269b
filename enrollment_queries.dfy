/** The queries of the enrollment repository, as predicates and filters over
    the enrollments table. */
module EnrollmentQueries {
  import opened Common
  import opened Entities

  /** `SELECT COUNT(e) > 0 ... WHERE e.user = :user AND e.course = :course` */
  predicate ExistsByUserAndCourse(t: map<Id, Enrollment>, user: Id, course: Id) {
    exists id :: id in t && t[id].user == user && t[id].course == course
  }

  /** The same query restricted to rows whose id is not `self`. */
  predicate ExistsByUserAndCourseAndIdNot(t: map<Id, Enrollment>, user: Id, course: Id, self: Id) {
    exists id :: id in t && id != self && t[id].user == user && t[id].course == course
  }

  /** findByIdWithDetails: the row with that id, or nothing. */
  function FindByIdWithDetails(t: map<Id, Enrollment>, id: Id): (r: Option<Enrollment>)
    ensures r.Some? <==> id in t
    ensures r.Some? ==> r.value == t[id]
  {
    if id in t then Some(t[id]) else None
  }

  /** findByUser: exactly the rows of that user, unchanged. */
  function FindByUser(t: map<Id, Enrollment>, user: Id): (r: map<Id, Enrollment>)
    ensures forall id :: id in r <==> id in t && t[id].user == user
    ensures forall id :: id in r ==> r[id] == t[id]
  {
    map id | id in t && t[id].user == user :: t[id]
  }

  /** Excluding one id can only make the query false where it was true. */
  lemma ExcludingSelfImpliesExists(t: map<Id, Enrollment>, user: Id, course: Id, self: Id)
    requires ExistsByUserAndCourseAndIdNot(t, user, course, self)
    ensures ExistsByUserAndCourse(t, user, course)
  {
    var id :| id in t && id != self && t[id].user == user && t[id].course == course;
  }

  /** On a table without duplicate pairs, the excluding query holds exactly
      when some row holds the pair and that row is not `self`'s. */
  lemma {:induction false} ExcludingSelfIff(t: map<Id, Enrollment>, user: Id, course: Id, self: Id)
    requires PairUnique(t)
    ensures ExistsByUserAndCourseAndIdNot(t, user, course, self) <==>
      ExistsByUserAndCourse(t, user, course) && !(self in t && t[self].user == user && t[self].course == course)
  {
    if ExistsByUserAndCourseAndIdNot(t, user, course, self) {
      var id :| id in t && id != self && t[id].user == user && t[id].course == course;
      assert !(self in t && t[self].user == user && t[self].course == course);
    }
    if ExistsByUserAndCourse(t, user, course) && !(self in t && t[self].user == user && t[self].course == course) {
      var id :| id in t && t[id].user == user && t[id].course == course;
      assert id != self;
    }
  }

  /** An update that keeps a row's own (user, course) pair is never a duplicate. */
  lemma OwnPairAccepted(t: map<Id, Enrollment>, self: Id)
    requires PairUnique(t) && self in t
    ensures !ExistsByUserAndCourseAndIdNot(t, t[self].user, t[self].course, self)
  {
    ExcludingSelfIff(t, t[self].user, t[self].course, self);
  }

  /** Adding a row under a new id whose pair no row holds keeps the pair unique. */
  lemma InsertKeepsPairUnique(t: map<Id, Enrollment>, id: Id, e: Enrollment)
    requires PairUnique(t) && id !in t
    requires !ExistsByUserAndCourse(t, e.user, e.course)
    ensures PairUnique(t[id := e])
  {
  }

  /** Rewriting row `id` with a pair no other row holds keeps the pair unique. */
  lemma ReplaceKeepsPairUnique(t: map<Id, Enrollment>, id: Id, e: Enrollment)
    requires PairUnique(t)
    requires !ExistsByUserAndCourseAndIdNot(t, e.user, e.course, id)
    ensures PairUnique(t[id := e])
  {
  }

  /** On a table without duplicate pairs, at most one row holds a given pair. */
  lemma AtMostOnePerPair(t: map<Id, Enrollment>, user: Id, course: Id)
    requires PairUnique(t)
    ensures |set id | id in t && t[id].user == user && t[id].course == course| <= 1
  {
    var s := set id | id in t && t[id].user == user && t[id].course == course;
    if ExistsByUserAndCourse(t, user, course) {
      var x :| x in t && t[x].user == user && t[x].course == course;
      assert forall y :: y in s <==> y == x;
      assert s == {x};
    } else {
      assert forall y :: y !in s;
      assert s == {};
    }
  }
}
