/** The activity rating the user controller computes: a base of 3.0 plus a
    tenth per enrollment and comment, the bonus capped at 2.0 and the total
    capped at 5.0. Computed over the reals. */
module Rating {

  function Min(a: real, b: real): real {
    if a <= b then a else b
  }

  const BaseRating: real := 3.0
  const MaxBonus: real := 2.0
  const MaxRating: real := 5.0

  function Rating(enrollments: nat, comments: nat): (r: real)
    ensures BaseRating <= r <= MaxRating
  {
    Min(BaseRating + Min((enrollments + comments) as real * 0.1, MaxBonus), MaxRating)
  }

  /** A user with no activity is rated 3.0. */
  lemma NoActivityRating()
    ensures Rating(0, 0) == BaseRating
  {
  }

  /** Twenty activities or more reach the maximum. */
  lemma SaturatedRating(enrollments: nat, comments: nat)
    requires enrollments + comments >= 20
    ensures Rating(enrollments, comments) == MaxRating
  {
  }

  /** Below twenty activities every one of them adds exactly a tenth. */
  lemma LinearRating(enrollments: nat, comments: nat)
    requires enrollments + comments <= 20
    ensures Rating(enrollments, comments) == BaseRating + (enrollments + comments) as real / 10.0
  {
  }

  /** More activity never lowers the rating. */
  lemma RatingMonotone(e1: nat, c1: nat, e2: nat, c2: nat)
    requires e1 + c1 <= e2 + c2
    ensures Rating(e1, c1) <= Rating(e2, c2)
  {
  }
}
