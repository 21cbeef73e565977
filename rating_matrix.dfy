/**
 * Stage 1 of the recommendation pipeline: the flat list of ratings is pivoted
 * into a dense users × movies table. Rows are the distinct user ids and
 * columns the distinct movie ids of all ratings, both in ascending order (as
 * a pivot table sorts its index and columns). A cell holds the mean of the
 * ratings given to that (user, movie) pair, the default pivot aggregation,
 * and a pair nobody rated is filled with 0.
 */
module RatingMatrix {

  /** One stored rating: user `userId` gave movie `movieId` the score `rating`. */
  datatype Rating = Rating(userId: int, movieId: int, rating: int)

  /** Row i of `cells` belongs to `users[i]`, column j to `movies[j]`. */
  datatype Matrix = Matrix(users: seq<int>, movies: seq<int>, cells: seq<seq<real>>)

  predicate StrictlyIncreasing(s: seq<int>)
  {
    forall i, j :: 0 <= i < j < |s| ==> s[i] < s[j]
  }

  /** Every row has one cell per column. */
  predicate Shaped(m: Matrix)
  {
    && |m.cells| == |m.users|
    && forall i :: 0 <= i < |m.cells| ==> |m.cells[i]| == |m.movies|
  }

  lemma ConsIncreasing(a: int, rest: seq<int>)
    requires StrictlyIncreasing(rest)
    requires forall y :: y in rest ==> a < y
    ensures StrictlyIncreasing([a] + rest)
  {
    var r := [a] + rest;
    forall i, j | 0 <= i < j < |r|
      ensures r[i] < r[j]
    {
      assert r[j] == rest[j - 1] && rest[j - 1] in rest;
      if i > 0 {
        assert r[i] == rest[i - 1];
      } else {
        assert r[i] == a;
      }
    }
  }

  /** Inserts `x` into a strictly increasing sequence unless it is already there. */
  function InsertId(x: int, s: seq<int>): (r: seq<int>)
    requires StrictlyIncreasing(s)
    ensures StrictlyIncreasing(r)
    ensures forall y :: y in r <==> y == x || y in s
  {
    if s == [] then [x]
    else if x < s[0] then
      ConsIncreasing(x, s);
      [x] + s
    else if x == s[0] then s
    else
      var rest := InsertId(x, s[1..]);
      assert StrictlyIncreasing(s[1..]);
      assert forall y :: y in s[1..] ==> s[0] < y;
      ConsIncreasing(s[0], rest);
      [s[0]] + rest
  }

  /** The distinct values of `xs` in ascending order. */
  function SortedDistinct(xs: seq<int>): (r: seq<int>)
    ensures StrictlyIncreasing(r)
    ensures forall y :: y in r <==> y in xs
  {
    if xs == [] then [] else InsertId(xs[0], SortedDistinct(xs[1..]))
  }

  function UserIds(obs: seq<Rating>): (ids: seq<int>)
    ensures |ids| == |obs|
    ensures forall k :: 0 <= k < |obs| ==> ids[k] == obs[k].userId
  {
    seq(|obs|, k requires 0 <= k < |obs| => obs[k].userId)
  }

  function MovieIds(obs: seq<Rating>): (ids: seq<int>)
    ensures |ids| == |obs|
    ensures forall k :: 0 <= k < |obs| ==> ids[k] == obs[k].movieId
  {
    seq(|obs|, k requires 0 <= k < |obs| => obs[k].movieId)
  }

  predicate IsFor(o: Rating, u: int, m: int)
  {
    o.userId == u && o.movieId == m
  }

  /** Number of ratings of movie `m` by user `u`. */
  function RatingCount(obs: seq<Rating>, u: int, m: int): nat
  {
    if obs == [] then 0
    else (if IsFor(obs[0], u, m) then 1 else 0) + RatingCount(obs[1..], u, m)
  }

  /** Sum of the ratings of movie `m` by user `u`. */
  function RatingSum(obs: seq<Rating>, u: int, m: int): int
  {
    if obs == [] then 0
    else (if IsFor(obs[0], u, m) then obs[0].rating else 0) + RatingSum(obs[1..], u, m)
  }

  /** The pivot cell: the mean rating of the pair, or 0 when it was never rated. */
  function Cell(obs: seq<Rating>, u: int, m: int): (c: real)
    ensures RatingCount(obs, u, m) > 0 ==>
              c * (RatingCount(obs, u, m) as real) == RatingSum(obs, u, m) as real
  {
    var n := RatingCount(obs, u, m);
    if n == 0 then 0.0 else RatingSum(obs, u, m) as real / n as real
  }

  /** Pivots the ratings into the dense table and fills missing cells with 0. */
  function BuildMatrix(obs: seq<Rating>): (m: Matrix)
    ensures Shaped(m)
    ensures StrictlyIncreasing(m.users) && StrictlyIncreasing(m.movies)
    ensures forall u :: u in m.users <==> exists k :: 0 <= k < |obs| && obs[k].userId == u
    ensures forall v :: v in m.movies <==> exists k :: 0 <= k < |obs| && obs[k].movieId == v
    ensures forall i, j :: 0 <= i < |m.users| && 0 <= j < |m.movies| ==>
              m.cells[i][j] == Cell(obs, m.users[i], m.movies[j])
  {
    var users := SortedDistinct(UserIds(obs));
    var movies := SortedDistinct(MovieIds(obs));
    assert forall u :: u in UserIds(obs) <==> exists k :: 0 <= k < |obs| && obs[k].userId == u;
    assert forall v :: v in MovieIds(obs) <==> exists k :: 0 <= k < |obs| && obs[k].movieId == v;
    Matrix(users, movies,
      seq(|users|, i requires 0 <= i < |users| =>
        seq(|movies|, j requires 0 <= j < |movies| => Cell(obs, users[i], movies[j]))))
  }

  /** No rating of the pair: the count is zero exactly when nothing matches. */
  lemma {:induction false} CountZeroIff(obs: seq<Rating>, u: int, m: int)
    ensures RatingCount(obs, u, m) == 0 <==> forall k :: 0 <= k < |obs| ==> !IsFor(obs[k], u, m)
  {
    if obs != [] {
      CountZeroIff(obs[1..], u, m);
      assert forall k :: 1 <= k < |obs| ==> obs[k] == obs[1..][k - 1];
    }
  }

  /** A (user, movie) pair with no rating is filled with 0. */
  lemma UnratedCellIsZero(obs: seq<Rating>, u: int, m: int)
    requires forall k :: 0 <= k < |obs| ==> !IsFor(obs[k], u, m)
    ensures Cell(obs, u, m) == 0.0
  {
    CountZeroIff(obs, u, m);
  }

  /** With exactly one rating of the pair, count and sum are that one rating. */
  lemma {:induction false} SingleRatingSums(obs: seq<Rating>, u: int, m: int, k: nat)
    requires k < |obs| && IsFor(obs[k], u, m)
    requires forall k' :: 0 <= k' < |obs| && k' != k ==> !IsFor(obs[k'], u, m)
    ensures RatingCount(obs, u, m) == 1 && RatingSum(obs, u, m) == obs[k].rating
  {
    assert forall k' :: 1 <= k' < |obs| ==> obs[k'] == obs[1..][k' - 1];
    if k == 0 {
      CountZeroIff(obs[1..], u, m);
      SumOfUnrated(obs[1..], u, m);
    } else {
      SingleRatingSums(obs[1..], u, m, k - 1);
    }
  }

  lemma {:induction false} SumOfUnrated(obs: seq<Rating>, u: int, m: int)
    requires forall k :: 0 <= k < |obs| ==> !IsFor(obs[k], u, m)
    ensures RatingSum(obs, u, m) == 0
  {
    if obs != [] {
      assert forall k :: 1 <= k < |obs| ==> obs[k] == obs[1..][k - 1];
      SumOfUnrated(obs[1..], u, m);
    }
  }

  /** A pair rated exactly once holds that rating in the table. */
  lemma SingleRatingCell(obs: seq<Rating>, k: nat)
    requires k < |obs|
    requires forall k' :: 0 <= k' < |obs| && k' != k ==> !IsFor(obs[k'], obs[k].userId, obs[k].movieId)
    ensures Cell(obs, obs[k].userId, obs[k].movieId) == obs[k].rating as real
  {
    SingleRatingSums(obs, obs[k].userId, obs[k].movieId, k);
  }

  /** Duplicate ratings of a pair are averaged: the cell lies between their extremes. */
  lemma CellWithinRatings(obs: seq<Rating>, u: int, m: int, lo: int, hi: int)
    requires forall k :: 0 <= k < |obs| && IsFor(obs[k], u, m) ==> lo <= obs[k].rating <= hi
    requires exists k :: 0 <= k < |obs| && IsFor(obs[k], u, m)
    ensures lo as real <= Cell(obs, u, m) <= hi as real
  {
    CountZeroIff(obs, u, m);
    SumBounds(obs, u, m, lo, hi);
    MeanBounds(lo, hi, RatingSum(obs, u, m), RatingCount(obs, u, m));
  }

  lemma MeanBounds(lo: int, hi: int, s: int, n: int)
    requires n > 0 && lo * n <= s <= hi * n
    ensures lo as real <= s as real / n as real <= hi as real
  {
    assert (lo * n) as real == lo as real * n as real;
    assert (hi * n) as real == hi as real * n as real;
    var q := s as real / n as real;
    assert q * n as real == s as real;
  }

  lemma StepBounds(lo: int, hi: int, c: int, s: int, x: int)
    requires lo * c <= s <= hi * c && lo <= x <= hi
    ensures lo * (c + 1) <= s + x <= hi * (c + 1)
  {
    assert lo * (c + 1) == lo * c + lo;
    assert hi * (c + 1) == hi * c + hi;
  }

  lemma {:induction false} SumBounds(obs: seq<Rating>, u: int, m: int, lo: int, hi: int)
    requires forall k :: 0 <= k < |obs| && IsFor(obs[k], u, m) ==> lo <= obs[k].rating <= hi
    ensures lo * RatingCount(obs, u, m) <= RatingSum(obs, u, m) <= hi * RatingCount(obs, u, m)
  {
    if obs != [] {
      assert forall k :: 1 <= k < |obs| ==> obs[k] == obs[1..][k - 1];
      SumBounds(obs[1..], u, m, lo, hi);
      if IsFor(obs[0], u, m) {
        StepBounds(lo, hi, RatingCount(obs[1..], u, m), RatingSum(obs[1..], u, m), obs[0].rating);
      }
    }
  }
}
