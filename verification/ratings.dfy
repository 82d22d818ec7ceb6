/** The `rating: { average, count }` sub-document shared by listings and users, and
    the running average that `updateRating` maintains. Arithmetic is exact. */
module Ratings {

  datatype Rating = Rating(average: real, count: nat)

  /** The schema default `{ average: 0, count: 0 }`. */
  const Unrated: Rating := Rating(0.0, 0)

  /** The sum of all ratings received so far. */
  function Total(r: Rating): real {
    r.average * r.count as real
  }

  /** `updateRating(newRating)`: one more rating, and the average of all of them. */
  function Updated(r: Rating, newRating: real): (r': Rating)
    ensures r'.count == r.count + 1
    ensures Total(r') == Total(r) + newRating
    ensures r.count == 0 ==> r'.average == newRating
  {
    var total := r.average * r.count as real + newRating;
    var count := r.count + 1;
    Rating(total / count as real, count)
  }

  /** The ratings received one after the other, from the unrated state. */
  function UpdatedAll(r: Rating, ratings: seq<real>): Rating
    decreases |ratings|
  {
    if ratings == [] then r else UpdatedAll(Updated(r, ratings[0]), ratings[1..])
  }

  function Sum(xs: seq<real>): real {
    if xs == [] then 0.0 else xs[0] + Sum(xs[1..])
  }

  /** After any sequence of updates the count is the number of ratings and the
      total is their sum. */
  lemma {:induction false} UpdatedAllTotal(r: Rating, ratings: seq<real>)
    ensures UpdatedAll(r, ratings).count == r.count + |ratings|
    ensures Total(UpdatedAll(r, ratings)) == Total(r) + Sum(ratings)
    decreases |ratings|
  {
    if ratings != [] {
      UpdatedAllTotal(Updated(r, ratings[0]), ratings[1..]);
    }
  }

  /** Starting unrated, the average is the arithmetic mean of the ratings received. */
  lemma AverageIsMean(ratings: seq<real>)
    requires ratings != []
    ensures UpdatedAll(Unrated, ratings).average == Sum(ratings) / |ratings| as real
  {
    var r := UpdatedAll(Unrated, ratings);
    UpdatedAllTotal(Unrated, ratings);
    assert r.average * |ratings| as real == Sum(ratings);
  }
}
