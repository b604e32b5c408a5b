/** Review statistics over the reviews table (`getReviewStats`). */
module Reviews {
  import opened Values
  import opened Tables

  /** The column the statistics select: the rating, as `parseInt` reads it. */
  datatype Review = Review(rating: int)

  /** `ratingDistribution`, one count per star value '5' down to '1'. */
  datatype ReviewStats = ReviewStats(
    totalReviews: nat,
    averageRating: real,
    fives: nat, fours: nat, threes: nat, twos: nat, ones: nat)

  function Rating(r: Review): int {
    r.rating
  }

  /** The rows with exactly `k` stars. */
  function RatingIs(k: int): Review -> bool {
    (r: Review) => r.rating == k
  }

  /** The five star filters, in the order the distribution lists them. */
  function StarFilters(): (ps: seq<Review -> bool>)
    ensures |ps| == 5 && forall j :: 0 <= j < 5 ==> ps[j] == RatingIs(5 - j)
  {
    [RatingIs(5), RatingIs(4), RatingIs(3), RatingIs(2), RatingIs(1)]
  }

  /** No review has two ratings, so no two star buckets accept it. */
  lemma StarFiltersDisjoint(rows: seq<Review>)
    ensures Disjoint(rows, StarFilters())
  {
    var ps := StarFilters();
    forall i, j, k | 0 <= i < |rows| && 0 <= j < k < |ps| ensures !(ps[j](rows[i]) && ps[k](rows[i])) {
      assert ps[j] == RatingIs(5 - j) && ps[k] == RatingIs(5 - k);
    }
  }

  /** With every rating in 1..5, each review falls in some star bucket. */
  lemma StarFiltersCover(rows: seq<Review>)
    requires forall i :: 0 <= i < |rows| ==> 1 <= rows[i].rating <= 5
    ensures Covered(rows, StarFilters())
  {
    var ps := StarFilters();
    forall i | 0 <= i < |rows| ensures InSomeBucket(rows[i], ps) {
      var j := 5 - rows[i].rating;
      assert ps[j] == RatingIs(rows[i].rating);
      assert ps[j](rows[i]);
    }
  }

  /** The five star buckets never count a review twice; with every rating in 1..5 they count each once. */
  lemma StarBuckets(rows: seq<Review>)
    ensures var n := Count(rows, RatingIs(5)) + Count(rows, RatingIs(4)) + Count(rows, RatingIs(3)) +
                     Count(rows, RatingIs(2)) + Count(rows, RatingIs(1));
            n <= |rows| &&
            ((forall i :: 0 <= i < |rows| ==> 1 <= rows[i].rating <= 5) ==> n == |rows|)
  {
    StarFiltersDisjoint(rows);
    Buckets(rows, StarFilters());
    CountEachOfFive(rows, RatingIs(5), RatingIs(4), RatingIs(3), RatingIs(2), RatingIs(1));
    if forall i :: 0 <= i < |rows| ==> 1 <= rows[i].rating <= 5 {
      StarFiltersCover(rows);
    }
  }

  /** The mean of the ratings (before the two-decimal formatting), 0 for an empty table. */
  function Average(rows: seq<Review>): (avg: real)
    ensures |rows| == 0 ==> avg == 0.0
    ensures |rows| > 0 ==> avg * (|rows| as real) == Sum(rows, Rating) as real
  {
    if |rows| > 0 then (Sum(rows, Rating) as real) / (|rows| as real) else 0.0
  }

  /** With every rating on the 1..5 scale, the mean is on that scale too. */
  lemma AverageWithinScale(rows: seq<Review>)
    requires |rows| > 0
    requires forall i :: 0 <= i < |rows| ==> 1 <= rows[i].rating <= 5
    ensures 1.0 <= Average(rows) <= 5.0
  {
    SumBounds(rows, Rating, 1, 5);
    var n, total := |rows| as real, Sum(rows, Rating) as real;
    assert 1.0 * n <= total <= 5.0 * n;
    MeanWithin(total, n, 1.0, 5.0);
  }

  /** `getReviewStats`; a null `data` gives no ratings (`data?.map(...) || []`). */
  function GetReviewStats(data: Option<seq<Review>>): (r: ReviewStats)
    ensures r.totalReviews == |OrEmpty(data)|
    ensures r.fives == Count(OrEmpty(data), RatingIs(5)) && r.fours == Count(OrEmpty(data), RatingIs(4)) &&
            r.threes == Count(OrEmpty(data), RatingIs(3)) && r.twos == Count(OrEmpty(data), RatingIs(2)) &&
            r.ones == Count(OrEmpty(data), RatingIs(1))
    ensures r.fives + r.fours + r.threes + r.twos + r.ones <= r.totalReviews
    ensures (forall i :: 0 <= i < |OrEmpty(data)| ==> 1 <= OrEmpty(data)[i].rating <= 5) ==>
              r.fives + r.fours + r.threes + r.twos + r.ones == r.totalReviews
    ensures r.totalReviews == 0 ==> r.averageRating == 0.0
    ensures r.totalReviews > 0 ==> r.averageRating * (r.totalReviews as real) == Sum(OrEmpty(data), Rating) as real
  {
    var rows := OrEmpty(data);
    StarBuckets(rows);
    ReviewStats(|rows|, Average(rows),
                Count(rows, RatingIs(5)), Count(rows, RatingIs(4)), Count(rows, RatingIs(3)),
                Count(rows, RatingIs(2)), Count(rows, RatingIs(1)))
  }

  /** Every rating counts toward the total; one outside 1..5 falls in no bucket. */
  lemma OffScaleRatingInNoBucket(rows: seq<Review>, x: Review)
    requires !(1 <= x.rating <= 5)
    ensures var before, after := GetReviewStats(Some(rows)), GetReviewStats(Some(rows + [x]));
            after.totalReviews == before.totalReviews + 1 &&
            after.fives + after.fours + after.threes + after.twos + after.ones
              == before.fives + before.fours + before.threes + before.twos + before.ones
  {
    assert (rows + [x])[..|rows|] == rows;
  }
}
