/** The dashboard: six totals, each shown with a progress value that is a
    rounded, capped percentage of a target derived from the user or course
    count. Percentages are computed over exact rationals. */
module Dashboard {
  import opened Common

  /** `Math.round(n / d)` for n >= 0 and d > 0: the nearest integer, halves
      rounded up. */
  function RoundDiv(n: nat, d: nat): (r: nat)
    requires d > 0
    ensures r * (2 * d) <= 2 * n + d < (r + 1) * (2 * d)
  {
    (2 * n + d) / (2 * d)
  }

  /** `total > 0 ? Math.min(100, Math.round(count / (total * per) * 100)) : 0` */
  function Rate(count: nat, total: nat, per: nat): (p: nat)
    requires per > 0
    ensures p <= 100
    ensures total == 0 ==> p == 0
    ensures total > 0 && count >= total * per ==> p == 100
    ensures total > 0 && count == 0 ==> p == 0
  {
    if total == 0 then 0
    else
      var r := RoundDiv(100 * count, total * per);
      RoundDivBounds(count, total * per);
      if r < 100 then r else 100
  }

  /** A count at or above its target rounds to at least 100 percent; a zero
      count rounds to 0. */
  lemma RoundDivBounds(count: nat, d: nat)
    requires d > 0
    ensures count >= d ==> RoundDiv(100 * count, d) >= 100
    ensures count == 0 ==> RoundDiv(100 * count, d) == 0
  {
    var r := RoundDiv(100 * count, d);
    if count >= d && r < 100 {
      MulMonotone(r + 1, 100, 2 * d);
      assert false;
    }
    if count == 0 && r >= 1 {
      MulMonotone(1, r, 2 * d);
      assert false;
    }
  }

  lemma MulMonotone(a: nat, b: nat, c: nat)
    requires a <= b
    ensures a * c <= b * c
  {
  }

  /** More activity never lowers a progress value. */
  lemma {:induction false} RateMonotone(c1: nat, c2: nat, total: nat, per: nat)
    requires per > 0 && c1 <= c2
    ensures Rate(c1, total, per) <= Rate(c2, total, per)
  {
    if total > 0 {
      var d := total * per;
      var r1, r2 := RoundDiv(100 * c1, d), RoundDiv(100 * c2, d);
      if r1 > r2 {
        MulMonotone(r2 + 1, r1, 2 * d);
        assert false;
      }
    }
  }

  /** The row count of a response body: its length, or 0 when the body has
      none. */
  function Total(length: Option<nat>): nat {
    length.GetOr(0)
  }

  /** The six response lengths, in the order they are fetched. */
  datatype Lengths = Lengths(
    users: Option<nat>,
    courses: Option<nat>,
    lessons: Option<nat>,
    enrollments: Option<nat>,
    comments: Option<nat>,
    quizzes: Option<nat>)

  datatype Stats = Stats(students: nat, courses: nat, lessons: nat)
  datatype Card = Card(count: nat, progress: nat)
  datatype Cards = Cards(users: Card, courses: Card, lessons: Card, enrollments: Card, comments: Card, quizzes: Card)

  const ZeroCard := Card(0, 0)
  const ZeroCards := Cards(ZeroCard, ZeroCard, ZeroCard, ZeroCard, ZeroCard, ZeroCard)
  const ZeroStats := Stats(0, 0, 0)

  predicate ProgressInRange(c: Cards) {
    && c.users.progress <= 100 && c.courses.progress <= 100 && c.lessons.progress <= 100
    && c.enrollments.progress <= 100 && c.comments.progress <= 100 && c.quizzes.progress <= 100
  }

  /** The three headline numbers: users (as students), courses, lessons. */
  function StatsFor(l: Lengths): Stats {
    Stats(Total(l.users), Total(l.courses), Total(l.lessons))
  }

  /** The cards: course, lesson and quiz progress are measured against 5, 10
      and 2 per course; enrollment and comment progress against 2 and 3 per
      user; the users card shows the user count itself, capped at 100. */
  function CardsFor(l: Lengths): (c: Cards)
    ensures ProgressInRange(c)
    ensures c.users.count == Total(l.users) && c.courses.count == Total(l.courses)
    ensures c.lessons.count == Total(l.lessons) && c.enrollments.count == Total(l.enrollments)
    ensures c.comments.count == Total(l.comments) && c.quizzes.count == Total(l.quizzes)
    ensures c.users.progress == (if Total(l.users) < 100 then Total(l.users) else 100)
    ensures Total(l.courses) == 0 ==> c.courses.progress == 0 && c.lessons.progress == 0 && c.quizzes.progress == 0
    ensures Total(l.users) == 0 ==> c.enrollments.progress == 0 && c.comments.progress == 0
  {
    var users, courses, lessons := Total(l.users), Total(l.courses), Total(l.lessons);
    var enrollments, comments, quizzes := Total(l.enrollments), Total(l.comments), Total(l.quizzes);
    Cards(
      Card(users, UsersProgress(users)),
      Card(courses, Rate(lessons, courses, 5)),
      Card(lessons, Rate(lessons, courses, 10)),
      Card(enrollments, Rate(enrollments, users, 2)),
      Card(comments, Rate(comments, users, 3)),
      Card(quizzes, Rate(quizzes, courses, 2)))
  }

  /** `totalUsers > 0 ? Math.min(100, Math.round(totalUsers / 100 * 100)) : 0` */
  function UsersProgress(users: nat): (p: nat)
    ensures p == (if users < 100 then users else 100)
  {
    if users == 0 then 0
    else
      RoundDivExact(users);
      var r := RoundDiv(100 * users, 100);
      if r < 100 then r else 100
  }

  /** `n / 100 * 100` rounds back to n. */
  lemma RoundDivExact(n: nat)
    ensures RoundDiv(100 * n, 100) == n
  {
    var r := RoundDiv(100 * n, 100);
    if r < n {
      MulMonotone(r + 1, n, 200);
      assert false;
    }
    if r > n {
      MulMonotone(n + 1, r, 200);
      assert false;
    }
  }

  class DashboardState {
    var stats: Stats
    var cards: Cards
    var loading: bool

    constructor ()
      ensures stats == ZeroStats && cards == ZeroCards && loading
    {
      stats := ZeroStats;
      cards := ZeroCards;
      loading := true;
    }

    /** fetchDashboardData: `lengths` is None when any of the six requests
        fails, in which case every stat and card is reset to 0. Loading ends
        either way. */
    method FetchDashboardData(lengths: Option<Lengths>)
      modifies this
      ensures !loading
      ensures ProgressInRange(cards)
      ensures lengths.None? ==> stats == ZeroStats && cards == ZeroCards
      ensures lengths.Some? ==> stats == StatsFor(lengths.value) && cards == CardsFor(lengths.value)
    {
      loading := true;
      if lengths.None? {
        stats := ZeroStats;
        cards := ZeroCards;
      } else {
        stats := StatsFor(lengths.value);
        cards := CardsFor(lengths.value);
      }
      loading := false;
    }
  }
}
