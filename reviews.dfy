/** Reviews (convex/reviews.ts): a property's reviews newest first, the insert that keeps
    one review per (user, property), and the rating statistics. */
module Reviews {
  import opened Wrappers
  import opened Schema
  import opened Query
  import opened Sorting
  import opened Store

  const MustLogIn := "Must be logged in to leave a review"
  const AlreadyReviewed := "You have already reviewed this property"
  const Anonymous := "Anonymous User"

  /** The `by_property` index scan. */
  function ReviewsFor(reviews: seq<Review>, pid: Id): (r: seq<Review>)
    ensures forall x :: x in r <==> x in reviews && x.propertyId == pid
  {
    Filter(reviews, (x: Review) => x.propertyId == pid)
  }

  // ---------------------------------------------------------------------------
  // getByProperty

  datatype ReviewWithUser = ReviewWithUser(review: Review, userName: string)

  /** `user?.name || "Anonymous User"`: `nameOf` gives the author's name, or none when the
      user or the name is missing. */
  function AuthorName(nameOf: UserId -> Option<string>, user: UserId): (n: string)
    ensures n != ""
    ensures nameOf(user).Some? && nameOf(user).value != "" ==> n == nameOf(user).value
    ensures nameOf(user).None? || nameOf(user).value == "" ==> n == Anonymous
  {
    match nameOf(user)
    case Some(name) => if name != "" then name else Anonymous
    case None => Anonymous
  }

  function WithAuthors(rs: seq<Review>, nameOf: UserId -> Option<string>): (r: seq<ReviewWithUser>)
    ensures |r| == |rs|
    ensures forall i :: 0 <= i < |rs| ==> r[i] == ReviewWithUser(rs[i], AuthorName(nameOf, rs[i].userId))
  {
    seq(|rs|, i requires 0 <= i < |rs| => ReviewWithUser(rs[i], AuthorName(nameOf, rs[i].userId)))
  }

  /** The comparator `(a, b) => b._creationTime - a._creationTime`. */
  function NewestFirst(a: ReviewWithUser, b: ReviewWithUser): real
  {
    b.review.creationTime - a.review.creationTime
  }

  lemma NewestFirstConsistent()
    ensures Consistent(NewestFirst)
  {
  }

  /** The `getByProperty` query. */
  function GetByProperty(reviews: seq<Review>, pid: Id, nameOf: UserId -> Option<string>): (r: seq<ReviewWithUser>)
    ensures |r| == |ReviewsFor(reviews, pid)|
    ensures forall i :: 0 <= i < |r| ==>
      && r[i].review in reviews
      && r[i].review.propertyId == pid
      && r[i].userName == AuthorName(nameOf, r[i].review.userId)
    ensures forall x :: x in reviews && x.propertyId == pid ==>
      ReviewWithUser(x, AuthorName(nameOf, x.userId)) in r
    ensures forall i, j :: 0 <= i < j < |r| ==> r[i].review.creationTime >= r[j].review.creationTime
  {
    var rs := ReviewsFor(reviews, pid);
    var named := WithAuthors(rs, nameOf);
    var r := Sort(named, NewestFirst);
    SortedReviewsMembers(reviews, pid, nameOf, rs, named, r);
    SortedReviewsOrder(named, r);
    r
  }

  lemma SortedReviewsMembers(reviews: seq<Review>, pid: Id, nameOf: UserId -> Option<string>,
                             rs: seq<Review>, named: seq<ReviewWithUser>, r: seq<ReviewWithUser>)
    requires rs == ReviewsFor(reviews, pid) && named == WithAuthors(rs, nameOf)
    requires multiset(r) == multiset(named)
    ensures forall i :: 0 <= i < |r| ==>
      && r[i].review in reviews
      && r[i].review.propertyId == pid
      && r[i].userName == AuthorName(nameOf, r[i].review.userId)
    ensures forall x :: x in reviews && x.propertyId == pid ==>
      ReviewWithUser(x, AuthorName(nameOf, x.userId)) in r
  {
    forall i | 0 <= i < |r|
      ensures r[i].review in rs && r[i].userName == AuthorName(nameOf, r[i].review.userId)
    {
      assert r[i] in multiset(named);
      var k :| 0 <= k < |named| && named[k] == r[i];
    }
    forall x | x in reviews && x.propertyId == pid
      ensures ReviewWithUser(x, AuthorName(nameOf, x.userId)) in r
    {
      var k :| 0 <= k < |rs| && rs[k] == x;
      assert named[k] in multiset(r);
    }
  }

  lemma SortedReviewsOrder(named: seq<ReviewWithUser>, r: seq<ReviewWithUser>)
    requires r == Sort(named, NewestFirst)
    ensures forall i, j :: 0 <= i < j < |r| ==> r[i].review.creationTime >= r[j].review.creationTime
  {
    NewestFirstConsistent();
    SortSorted(named, NewestFirst);
    forall i, j | 0 <= i < j < |r| ensures r[i].review.creationTime >= r[j].review.creationTime {
      assert NewestFirst(r[i], r[j]) <= 0.0;
    }
  }

  // ---------------------------------------------------------------------------
  // create

  /** The `by_property` scan filtered on the author, followed by `.unique()`. */
  function ReviewIndex(reviews: seq<Review>, user: UserId, pid: Id): Result<Option<nat>>
  {
    UniqueIndex(reviews, (x: Review) => x.propertyId == pid && x.userId == user)
  }

  /** The document `create` inserts: the arguments as given, rating included, the caller
      as author and no helpful votes. */
  function NewReview(id: Id, now: Number, user: UserId, pid: Id, rating: Number, comment: string): Review
  {
    Review(id, now, pid, user, rating, comment, 0.0)
  }

  method Create(db: Db, caller: Option<UserId>, pid: Id, rating: Number, comment: string, now: Number)
    returns (r: Result<Id>)
    modifies db`reviews, db`nextId
    ensures caller.None? ==>
      r == Err(MustLogIn) && db.reviews == old(db.reviews) && db.nextId == old(db.nextId)
    ensures caller.Some? ==>
      match ReviewIndex(old(db.reviews), caller.value, pid)
      case Err(e) => r == Err(e) && db.reviews == old(db.reviews) && db.nextId == old(db.nextId)
      case Ok(Some(_)) =>
        r == Err(AlreadyReviewed) && db.reviews == old(db.reviews) && db.nextId == old(db.nextId)
      case Ok(None) =>
        && r == Ok(old(db.nextId))
        && db.reviews == old(db.reviews) + [NewReview(old(db.nextId), now, caller.value, pid, rating, comment)]
        && db.nextId == old(db.nextId) + 1
    ensures r.Ok? ==> db.reviews[|db.reviews| - 1].rating == rating && db.reviews[|db.reviews| - 1].helpful == 0.0
    ensures old(db.Valid()) ==> db.Valid()
  {
    if caller.None? {
      return Err(MustLogIn);
    }
    var user := caller.value;
    match ReviewIndex(db.reviews, user, pid)
    case Err(e) =>
      r := Err(e);
    case Ok(Some(_)) =>
      r := Err(AlreadyReviewed);
    case Ok(None) =>
      var id := db.NewId();
      db.reviews := db.reviews + [NewReview(id, now, user, pid, rating, comment)];
      r := Ok(id);
  }

  /** With the constraint in place, a second review of a property by the same user is
      refused, while a review by another user, or of another property, is not. */
  lemma SecondReviewRefused(reviews: seq<Review>, rv: Review, user: UserId, pid: Id)
    requires OneReviewPerPair(reviews)
    requires rv in reviews
    ensures ReviewIndex(reviews, rv.userId, rv.propertyId).Ok?
    ensures ReviewIndex(reviews, rv.userId, rv.propertyId).value.Some?
    ensures (forall x :: x in reviews ==> x.userId != user || x.propertyId != pid) ==>
      ReviewIndex(reviews, user, pid) == Ok(None)
  {
    var k :| 0 <= k < |reviews| && reviews[k] == rv;
  }

  // ---------------------------------------------------------------------------
  // getStats

  /** The rating statistics; `ratingDistribution` maps each of the ratings 1 to 5 to a
      count. */
  datatype Stats = Stats(averageRating: Number, totalReviews: nat, ratingDistribution: map<int, nat>)

  const Ratings: set<int> := {1, 2, 3, 4, 5}

  /** `reviews.reduce((sum, review) => sum + review.rating, 0)`. */
  function SumRatings(rs: seq<Review>): Number
  {
    if rs == [] then 0.0 else SumRatings(rs[..|rs| - 1]) + rs[|rs| - 1].rating
  }

  /** The `reduce` that builds `dist`: `dist[rating] = (dist[rating] || 0) + 1` for every
      review in turn. */
  function Tally(rs: seq<Review>): map<Number, nat>
  {
    if rs == [] then map[]
    else
      var dist := Tally(rs[..|rs| - 1]);
      var k := rs[|rs| - 1].rating;
      dist[k := Bucket(dist, k) + 1]
  }

  /** `dist[k] || 0`. */
  function Bucket(dist: map<Number, nat>, k: Number): nat
  {
    if k in dist then dist[k] else 0
  }

  /** The number of reviews whose rating is exactly `k`. */
  function Count(rs: seq<Review>, k: Number): (n: nat)
    ensures n <= |rs|
  {
    if rs == [] then 0 else (if rs[0].rating == k then 1 else 0) + Count(rs[1..], k)
  }

  /** `Math.round`: to the nearest integer, halves upward. */
  function JsRound(x: real): int
  {
    (x + 0.5).Floor
  }

  /** `Math.round(x * 10) / 10`. */
  function RoundTenth(x: real): (y: real)
    ensures x - 0.05 < y <= x + 0.05
    ensures (y * 10.0).Floor as real == y * 10.0
  {
    JsRound(x * 10.0) as real / 10.0
  }

  /** The `getStats` query. */
  function GetStats(reviews: seq<Review>, pid: Id): (s: Stats)
    ensures s.totalReviews == |ReviewsFor(reviews, pid)|
    ensures s.ratingDistribution.Keys == Ratings
    ensures forall k :: k in s.ratingDistribution ==>
      s.ratingDistribution[k] == Count(ReviewsFor(reviews, pid), k as real)
    ensures s.totalReviews == 0 ==> s.averageRating == 0.0
    ensures s.totalReviews > 0 ==>
      var mean := SumRatings(ReviewsFor(reviews, pid)) / s.totalReviews as real;
      mean - 0.05 < s.averageRating <= mean + 0.05
    ensures (s.averageRating * 10.0).Floor as real == s.averageRating * 10.0
  {
    var rs := ReviewsFor(reviews, pid);
    if |rs| == 0 then
      Stats(0.0, 0, map[1 := 0, 2 := 0, 3 := 0, 4 := 0, 5 := 0])
    else
      var average := SumRatings(rs) / |rs| as real;
      var dist := Tally(rs);
      TallyCounts(rs);
      Stats(RoundTenth(average), |rs|, map k | k in Ratings :: Bucket(dist, k as real))
  }

  lemma {:induction false} CountAppend(rs: seq<Review>, x: Review, k: Number)
    ensures Count(rs + [x], k) == Count(rs, k) + (if x.rating == k then 1 else 0)
  {
    if rs != [] {
      assert (rs + [x])[1..] == rs[1..] + [x];
      CountAppend(rs[1..], x, k);
    }
  }

  /** The tally counts the reviews of each rating. */
  lemma {:induction false} TallyCounts(rs: seq<Review>)
    ensures forall k :: Bucket(Tally(rs), k) == Count(rs, k)
  {
    if rs != [] {
      var init := rs[..|rs| - 1];
      var x := rs[|rs| - 1];
      TallyCounts(init);
      assert rs == init + [x];
      forall k ensures Bucket(Tally(rs), k) == Count(rs, k) {
        CountAppend(init, x, k);
      }
    }
  }

  /** A property without reviews has rating 0, no reviews and five empty buckets. */
  lemma NoReviewsStats(reviews: seq<Review>, pid: Id)
    requires forall x :: x in reviews ==> x.propertyId != pid
    ensures GetStats(reviews, pid) == Stats(0.0, 0, map[1 := 0, 2 := 0, 3 := 0, 4 := 0, 5 := 0])
  {
    var rs := ReviewsFor(reviews, pid);
    assert forall i :: 0 <= i < |rs| ==> rs[i] in rs;
  }

  /** A rating that has a bucket of its own. */
  predicate InBuckets(x: Number)
  {
    x == 1.0 || x == 2.0 || x == 3.0 || x == 4.0 || x == 5.0
  }

  /** The number of reviews whose rating has no bucket. */
  function CountOutside(rs: seq<Review>): nat
  {
    if rs == [] then 0 else (if InBuckets(rs[0].rating) then 0 else 1) + CountOutside(rs[1..])
  }

  lemma {:induction false} BucketsPartition(rs: seq<Review>)
    ensures Count(rs, 1.0) + Count(rs, 2.0) + Count(rs, 3.0) + Count(rs, 4.0) + Count(rs, 5.0)
            + CountOutside(rs) == |rs|
    ensures CountOutside(rs) == 0 <==> forall x :: x in rs ==> InBuckets(x.rating)
  {
    if rs != [] {
      BucketsPartition(rs[1..]);
      assert forall x :: x in rs <==> x == rs[0] || x in rs[1..];
    }
  }

  function BucketTotal(dist: map<int, nat>): nat
    requires Ratings <= dist.Keys
  {
    dist[1] + dist[2] + dist[3] + dist[4] + dist[5]
  }

  /** The five buckets hold at most all the reviews, and all of them exactly when every
      rating is one of the integers 1 to 5. */
  lemma DistributionTotal(reviews: seq<Review>, pid: Id)
    ensures var s := GetStats(reviews, pid);
      && BucketTotal(s.ratingDistribution) <= s.totalReviews
      && (BucketTotal(s.ratingDistribution) == s.totalReviews <==>
          forall x :: x in reviews && x.propertyId == pid ==> InBuckets(x.rating))
  {
    var rs := ReviewsFor(reviews, pid);
    BucketsPartition(rs);
    var s := GetStats(reviews, pid);
    assert s.ratingDistribution[1] == Count(rs, 1.0);
    assert s.ratingDistribution[2] == Count(rs, 2.0);
    assert s.ratingDistribution[3] == Count(rs, 3.0);
    assert s.ratingDistribution[4] == Count(rs, 4.0);
    assert s.ratingDistribution[5] == Count(rs, 5.0);
  }

  lemma {:induction false} SumBounds(rs: seq<Review>)
    requires forall x :: x in rs ==> 1.0 <= x.rating <= 5.0
    ensures |rs| as real <= SumRatings(rs) <= 5.0 * |rs| as real
  {
    if rs != [] {
      var init := rs[..|rs| - 1];
      assert forall x :: x in init ==> x in rs;
      SumBounds(init);
      assert rs[|rs| - 1] in rs;
    }
  }

  lemma MeanBounds(sum: real, n: real)
    requires n > 0.0 && n <= sum <= 5.0 * n
    ensures 1.0 <= sum / n <= 5.0
  {
    var mean := sum / n;
    assert (mean - 1.0) * n == sum - n;
    assert (5.0 - mean) * n == 5.0 * n - sum;
  }

  /** When every rating lies between 1 and 5, so does the rounded average. */
  lemma AverageInRange(reviews: seq<Review>, pid: Id)
    requires forall x :: x in reviews && x.propertyId == pid ==> 1.0 <= x.rating <= 5.0
    requires exists x :: x in reviews && x.propertyId == pid
    ensures 1.0 <= GetStats(reviews, pid).averageRating <= 5.0
  {
    var rs := ReviewsFor(reviews, pid);
    var x :| x in reviews && x.propertyId == pid;
    assert x in rs;
    SumBounds(rs);
    var mean := SumRatings(rs) / |rs| as real;
    MeanBounds(SumRatings(rs), |rs| as real);
    var k := JsRound(mean * 10.0);
    assert 10 <= k <= 50;
    assert GetStats(reviews, pid).averageRating == k as real / 10.0;
  }
}
