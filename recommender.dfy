/**
 * The recommendation pipeline end to end: given every stored rating, a
 * target user and a requested count, return the ids of the movies to
 * recommend, best first, or the reason there is no answer.
 *
 *   1. pivot the ratings into a users × movies table (`RatingMatrix`);
 *   2. min-max scale each column (`MinMaxScaling`);
 *   3. compare users by cosine similarity of their scaled rows (`CosineSimilarity`);
 *   4. keep the five users most similar to the target (`Neighbourhood`);
 *   5. score each movie by the neighbours' mean raw rating and rank (`Scoring`);
 *   6. drop movies the target has a nonzero value for and keep `head(n)`.
 */
module Recommender {
  import opened RatingMatrix
  import opened MinMaxScaling
  import opened CosineSimilarity
  import opened Ranking
  import opened Neighbourhood
  import opened Scoring

  /** Why no recommendation could be made. */
  datatype Error =
    | NoRatings               // nothing is stored, so the scaler has no sample to fit
    | UnknownUser(userId: int) // the target has no row (and no similarity column)

  datatype Result<T> = Ok(value: T) | Err(error: Error)

  /** `u` has at least one stored rating, so it has a row in the table. */
  predicate HasRatings(obs: seq<Rating>, u: int)
  {
    exists k :: 0 <= k < |obs| && obs[k].userId == u
  }

  /** Some stored rating is for movie `v`, so it has a column in the table. */
  predicate IsRatedMovie(obs: seq<Rating>, v: int)
  {
    exists k :: 0 <= k < |obs| && obs[k].movieId == v
  }

  /** The position of `x` in `s`. */
  function IndexOf(s: seq<int>, x: int): (i: nat)
    requires x in s
    ensures i < |s| && s[i] == x
  {
    if s[0] == x then 0 else 1 + IndexOf(s[1..], x)
  }

  /** In a strictly increasing sequence every value has exactly one position. */
  lemma IndexOfIncreasing(s: seq<int>, i: nat)
    requires StrictlyIncreasing(s) && i < |s|
    ensures IndexOf(s, s[i]) == i
  {
  }

  /** The user × user similarity table of the scaled ratings. */
  function Similarities(m: Matrix): (sim: seq<seq<real>>)
    requires Shaped(m)
    ensures |sim| == |m.users| && Square(sim)
  {
    var n := Normalize(m);
    SimilarityMatrix(n.cells, |n.movies|)
  }

  /**
   * The true cosines of the scaled rows, for any choice of their norms, are
   * non-negative square roots of the model's similarities: the neighbour
   * lemmas stated over such roots therefore hold of the cosine itself.
   */
  lemma TrueCosinesAreRoots(m: Matrix, norms: seq<real>, cos: seq<seq<real>>)
    requires Shaped(m) && |norms| == |m.users| && |cos| == |m.users|
    requires forall a :: 0 <= a < |cos| ==> |cos[a]| == |m.users|
    requires forall a, b :: 0 <= a < |m.users| && 0 <= b < |m.users| ==>
               IsCosine(Normalize(m).cells[a], Normalize(m).cells[b], norms[a], norms[b], cos[a][b])
    ensures RootsOf(cos, Similarities(m))
  {
    var n := Normalize(m);
    forall a | 0 <= a < |n.cells|
      ensures |n.cells[a]| == |n.movies| && NonNegative(n.cells[a])
    {
      NormalizedRowNonNegative(m, a);
    }
    TableOfCosineRoots(n.cells, |n.movies|, norms, cos);
    assert forall a, b :: 0 <= a < |m.users| && 0 <= b < |m.users| ==>
             IsRoot(cos[a][b], Similarities(m)[a][b]);
  }

  /** The target's row. */
  function TargetRow(obs: seq<Rating>, target: int): (t: nat)
    requires HasRatings(obs, target)
    ensures t < |BuildMatrix(obs).users| && BuildMatrix(obs).users[t] == target
  {
    IndexOf(BuildMatrix(obs).users, target)
  }

  /** The rows of the target's neighbours, most similar first. */
  function TargetNeighbours(obs: seq<Rating>, target: int): (nbrs: seq<int>)
    requires HasRatings(obs, target)
    ensures RowsOf(BuildMatrix(obs), nbrs)
  {
    var m := BuildMatrix(obs);
    Neighbours(Similarities(m), TargetRow(obs, target))
  }

  /** A movie's score: its mean raw rating among the target's neighbours. */
  function MovieScore(obs: seq<Rating>, target: int, v: int): real
    requires HasRatings(obs, target) && IsRatedMovie(obs, v)
  {
    var m := BuildMatrix(obs);
    Mean(m, TargetNeighbours(obs, target), IndexOf(m.movies, v))
  }

  /** Scored movies ranked by score: exactly one entry per movie, keyed by its score. */
  lemma RankedScores(m: Matrix, nbrs: seq<int>)
    requires Shaped(m) && RowsOf(m, nbrs)
    ensures var r := Rank(MovieScores(m, nbrs));
            && UniqueIds(r)
            && forall x :: x in r <==> 0 <= x.id < |m.movies| && x.key == Mean(m, nbrs, x.id)
  {
    var s := MovieScores(m, nbrs);
    var r := Rank(s);
    PermutationUniqueIds(s, r);
    forall x | x in r
      ensures 0 <= x.id < |m.movies| && x.key == Mean(m, nbrs, x.id)
    {
      assert x in multiset(s);
    }
    forall x: Entry | 0 <= x.id < |m.movies| && x.key == Mean(m, nbrs, x.id)
      ensures x in r
    {
      assert x == s[x.id];
      assert x in multiset(r);
    }
  }

  /**
   * The movies that may be recommended, best first: every movie the target
   * (row `t`) holds 0 for, and nothing else, each keyed by its score.
   */
  function Candidates(m: Matrix, nbrs: seq<int>, t: nat): (c: seq<Entry>)
    requires Shaped(m) && RowsOf(m, nbrs) && t < |m.users|
    ensures Ranked(c) && UniqueIds(c)
    ensures forall x :: x in c <==>
              0 <= x.id < |m.movies| && m.cells[t][x.id] == 0.0 && x.key == Mean(m, nbrs, x.id)
    ensures forall k :: 0 <= k < |c| ==> 0 <= c[k].id < |m.movies|
  {
    RankedScores(m, nbrs);
    var c := Unrated(Rank(MovieScores(m, nbrs)), m.cells[t]);
    assert forall k :: 0 <= k < |c| ==> c[k] in c;
    c
  }

  /** The recommended entries: `head(n)` of the candidates. */
  function Chosen(m: Matrix, nbrs: seq<int>, t: nat, n: int): (h: seq<Entry>)
    requires Shaped(m) && RowsOf(m, nbrs) && t < |m.users|
    ensures |h| == HeadCount(|Candidates(m, nbrs, t)|, n)
    ensures forall k :: 0 <= k < |h| ==> h[k] == Candidates(m, nbrs, t)[k]
    ensures forall k :: 0 <= k < |h| ==> 0 <= h[k].id < |m.movies|
  {
    Head(Candidates(m, nbrs, t), n)
  }

  /**
   * Top-n on columns: a candidate column left out of the chosen prefix comes
   * after every chosen one, and is left out only because the prefix is
   * shorter than the candidate list.
   */
  lemma OmittedCandidate(m: Matrix, nbrs: seq<int>, t: nat, n: int, j: nat)
    requires Shaped(m) && RowsOf(m, nbrs) && t < |m.users|
    requires j < |m.movies| && m.cells[t][j] == 0.0
    requires forall p :: 0 <= p < |Chosen(m, nbrs, t, n)| ==> Chosen(m, nbrs, t, n)[p].id != j
    ensures |Chosen(m, nbrs, t, n)| < |Candidates(m, nbrs, t)|
    ensures forall k :: 0 <= k < |Chosen(m, nbrs, t, n)| ==>
              var i := Chosen(m, nbrs, t, n)[k].id;
              Mean(m, nbrs, i) > Mean(m, nbrs, j) || (Mean(m, nbrs, i) == Mean(m, nbrs, j) && i < j)
  {
    var c := Candidates(m, nbrs, t);
    var h := Chosen(m, nbrs, t, n);
    var x := Entry(j, Mean(m, nbrs, j));
    assert x in c;
    assert h == c[..|h|];
    OmittedFollowsPrefix(c, |h|, x);
    forall k | 0 <= k < |h|
      ensures Mean(m, nbrs, h[k].id) > Mean(m, nbrs, j) || (Mean(m, nbrs, h[k].id) == Mean(m, nbrs, j) && h[k].id < j)
    {
      assert c[k] in c;
      assert Precedes(c[k], x);
    }
  }

  /** The movie ids of the columns listed in `cols`. */
  function MovieIdsAt(m: Matrix, cols: seq<Entry>): (ids: seq<int>)
    requires forall k :: 0 <= k < |cols| ==> 0 <= cols[k].id < |m.movies|
    ensures |ids| == |cols|
    ensures forall k :: 0 <= k < |cols| ==> ids[k] == m.movies[cols[k].id]
  {
    seq(|cols|, k requires 0 <= k < |cols| => m.movies[cols[k].id])
  }

  /**
   * The recommender: at most `n` movie ids (pandas `head(n)`), best first.
   * It fails with `NoRatings` when nothing is stored and with `UnknownUser`
   * when the target has never rated anything.
   */
  function Recommend(obs: seq<Rating>, target: int, n: int): (r: Result<seq<int>>)
    ensures |obs| == 0 ==> r == Err(NoRatings)
    ensures |obs| > 0 && !HasRatings(obs, target) ==> r == Err(UnknownUser(target))
    ensures r.Ok? <==> HasRatings(obs, target)
  {
    if |obs| == 0 then Err(NoRatings)
    else if !HasRatings(obs, target) then Err(UnknownUser(target))
    else
      var m := BuildMatrix(obs);
      Ok(MovieIdsAt(m, Chosen(m, TargetNeighbours(obs, target), TargetRow(obs, target), n)))
  }

  /** The chosen columns behind a successful recommendation. */
  lemma RecommendChosen(obs: seq<Rating>, target: int, n: int)
    requires HasRatings(obs, target)
    ensures var m := BuildMatrix(obs);
            var h := Chosen(m, TargetNeighbours(obs, target), TargetRow(obs, target), n);
            var r := Recommend(obs, target, n).value;
            && |r| == |h|
            && forall k :: 0 <= k < |h| ==> 0 <= h[k].id < |m.movies| && r[k] == m.movies[h[k].id]
  {
  }

  /**
   * Every recommended movie is a rated movie whose table value for the
   * target is 0 (never rated, or rated 0 on average), and no movie is
   * recommended twice.
   */
  lemma RecommendationsAreUnratedMovies(obs: seq<Rating>, target: int, n: int)
    requires HasRatings(obs, target)
    ensures var r := Recommend(obs, target, n).value;
            && (forall k :: 0 <= k < |r| ==> IsRatedMovie(obs, r[k]) && Cell(obs, target, r[k]) == 0.0)
            && (forall k, k' :: 0 <= k < k' < |r| ==> r[k] != r[k'])
  {
    var m := BuildMatrix(obs);
    var t := TargetRow(obs, target);
    var nbrs := TargetNeighbours(obs, target);
    var c := Candidates(m, nbrs, t);
    var h := Chosen(m, nbrs, t, n);
    var r := Recommend(obs, target, n).value;
    RecommendChosen(obs, target, n);
    forall k | 0 <= k < |r|
      ensures IsRatedMovie(obs, r[k]) && Cell(obs, target, r[k]) == 0.0
    {
      assert h[k] == c[k] && c[k] in c;
      assert r[k] in m.movies;
    }
    forall k, k' | 0 <= k < k' < |r|
      ensures r[k] != r[k']
    {
      assert h[k] == c[k] && h[k'] == c[k'];
      var j, j' := h[k].id, h[k'].id;
      if j < j' {
        assert m.movies[j] < m.movies[j'];
      } else {
        assert m.movies[j'] < m.movies[j];
      }
    }
  }

  /** The result never exceeds the request, nor the number of distinct movies. */
  lemma RecommendationCount(obs: seq<Rating>, target: int, n: int)
    requires HasRatings(obs, target)
    ensures var r := Recommend(obs, target, n).value;
            && |r| <= |BuildMatrix(obs).movies|
            && (n >= 0 ==> |r| <= n)
  {
    var m := BuildMatrix(obs);
    var nbrs := TargetNeighbours(obs, target);
    var c := Candidates(m, nbrs, TargetRow(obs, target));
    RecommendChosen(obs, target, n);
    assert |c| <= |Rank(MovieScores(m, nbrs))|;
  }

  /** A recommended movie's score is the key it was ranked by. */
  lemma RecommendedScores(obs: seq<Rating>, target: int, n: int)
    requires HasRatings(obs, target)
    ensures var m := BuildMatrix(obs);
            var nbrs := TargetNeighbours(obs, target);
            var h := Chosen(m, nbrs, TargetRow(obs, target), n);
            var r := Recommend(obs, target, n).value;
            forall k :: 0 <= k < |r| ==> IsRatedMovie(obs, r[k]) && MovieScore(obs, target, r[k]) == Mean(m, nbrs, h[k].id)
  {
    var m := BuildMatrix(obs);
    var h := Chosen(m, TargetNeighbours(obs, target), TargetRow(obs, target), n);
    var r := Recommend(obs, target, n).value;
    RecommendChosen(obs, target, n);
    RecommendationsAreUnratedMovies(obs, target, n);
    forall k | 0 <= k < |r|
      ensures IndexOf(m.movies, r[k]) == h[k].id
    {
      IndexOfIncreasing(m.movies, h[k].id);
    }
  }

  /** Recommendations come in order of non-increasing score. */
  lemma RecommendationsInScoreOrder(obs: seq<Rating>, target: int, n: int)
    requires HasRatings(obs, target)
    ensures var r := Recommend(obs, target, n).value;
            forall k :: 0 <= k < |r| ==> IsRatedMovie(obs, r[k])
    ensures var r := Recommend(obs, target, n).value;
            forall k, k' :: 0 <= k < k' < |r| ==> MovieScore(obs, target, r[k]) >= MovieScore(obs, target, r[k'])
  {
    var m := BuildMatrix(obs);
    var nbrs := TargetNeighbours(obs, target);
    var c := Candidates(m, nbrs, TargetRow(obs, target));
    var h := Chosen(m, nbrs, TargetRow(obs, target), n);
    var r := Recommend(obs, target, n).value;
    RecommendChosen(obs, target, n);
    RecommendedScores(obs, target, n);
    forall k, k' | 0 <= k < k' < |r|
      ensures Mean(m, nbrs, h[k].id) >= Mean(m, nbrs, h[k'].id)
    {
      assert h[k] == c[k] && h[k'] == c[k'] && c[k] in c && c[k'] in c;
      assert Precedes(c[k], c[k']);
    }
  }

  /** Top-n in movie ids: a left-out candidate movie is outranked by every recommended one. */
  lemma OmittedMovieOutranked(m: Matrix, nbrs: seq<int>, t: nat, n: int, j: nat)
    requires Shaped(m) && StrictlyIncreasing(m.movies) && RowsOf(m, nbrs) && t < |m.users|
    requires j < |m.movies| && m.cells[t][j] == 0.0
    requires m.movies[j] !in MovieIdsAt(m, Chosen(m, nbrs, t, n))
    ensures |Chosen(m, nbrs, t, n)| < |Candidates(m, nbrs, t)|
    ensures var h := Chosen(m, nbrs, t, n);
            forall k :: 0 <= k < |h| ==>
              Mean(m, nbrs, h[k].id) > Mean(m, nbrs, j) ||
              (Mean(m, nbrs, h[k].id) == Mean(m, nbrs, j) && m.movies[h[k].id] < m.movies[j])
  {
    var h := Chosen(m, nbrs, t, n);
    var r := MovieIdsAt(m, h);
    forall p | 0 <= p < |h|
      ensures h[p].id != j
    {
      assert r[p] == m.movies[h[p].id];
    }
    OmittedCandidate(m, nbrs, t, n, j);
  }

  /**
   * Top-n: a movie the target holds 0 for that was left out is scored no
   * higher than any recommended movie (lower movie id first on equal
   * scores), and it was left out only because the list was already full.
   */
  lemma EligibleMovieOutranked(obs: seq<Rating>, target: int, n: int, v: int)
    requires HasRatings(obs, target) && IsRatedMovie(obs, v)
    requires Cell(obs, target, v) == 0.0
    requires v !in Recommend(obs, target, n).value
    ensures var r := Recommend(obs, target, n).value;
            && (n >= 0 ==> |r| == n)
            && forall k :: 0 <= k < |r| ==>
                 IsRatedMovie(obs, r[k]) &&
                 (MovieScore(obs, target, r[k]) > MovieScore(obs, target, v) ||
                  (MovieScore(obs, target, r[k]) == MovieScore(obs, target, v) && r[k] < v))
  {
    var m := BuildMatrix(obs);
    var nbrs := TargetNeighbours(obs, target);
    var t := TargetRow(obs, target);
    assert v in m.movies;
    var j := IndexOf(m.movies, v);
    assert m.cells[t][j] == Cell(obs, target, v);
    OmittedMovieOutranked(m, nbrs, t, n, j);
    RecommendedScores(obs, target, n);
  }
}
