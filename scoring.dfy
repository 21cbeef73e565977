/**
 * Stages 5 and 6: scoring movies and filtering them. A movie's score is the
 * mean of the neighbours' raw (not normalised) ratings of it; movies are
 * ranked by score, the ones the target has a nonzero value for are dropped,
 * and a prefix of the rest is taken with the semantics of a data-frame
 * `head(n)`: the first n, or, for negative n, all but the last |n|.
 *
 * Movies are identified by their column position; columns are in ascending
 * movie-id order, so ties between equal scores go to the lower movie id.
 */
module Scoring {
  import opened RatingMatrix
  import opened Ranking

  /** Every entry of `nbrs` is a row of `m`. */
  predicate RowsOf(m: Matrix, nbrs: seq<int>)
  {
    forall k :: 0 <= k < |nbrs| ==> 0 <= nbrs[k] < |m.users|
  }

  /** The sum of column `j` over the rows listed in `nbrs`. */
  function ColumnSum(m: Matrix, nbrs: seq<int>, j: nat): real
    requires Shaped(m) && j < |m.movies| && RowsOf(m, nbrs)
  {
    if nbrs == [] then 0.0 else m.cells[nbrs[0]][j] + ColumnSum(m, nbrs[1..], j)
  }

  /**
   * The mean of column `j` over the rows in `nbrs`. With no rows at all the
   * mean is taken to be 0 (see the README on the empty neighbourhood).
   */
  function Mean(m: Matrix, nbrs: seq<int>, j: nat): real
    requires Shaped(m) && j < |m.movies| && RowsOf(m, nbrs)
  {
    if |nbrs| == 0 then 0.0 else ColumnSum(m, nbrs, j) / |nbrs| as real
  }

  /** The mean times the number of neighbours is their total. */
  lemma MeanTimesCount(m: Matrix, nbrs: seq<int>, j: nat)
    requires Shaped(m) && j < |m.movies| && RowsOf(m, nbrs) && nbrs != []
    ensures Mean(m, nbrs, j) * (|nbrs| as real) == ColumnSum(m, nbrs, j)
  {
  }

  /** One entry per movie, keyed by its mean neighbour rating. */
  function MovieScores(m: Matrix, nbrs: seq<int>): (s: seq<Entry>)
    requires Shaped(m) && RowsOf(m, nbrs)
    ensures |s| == |m.movies| && UniqueIds(s)
    ensures forall j :: 0 <= j < |m.movies| ==> s[j] == Entry(j, Mean(m, nbrs, j))
  {
    seq(|m.movies|, j requires 0 <= j < |m.movies| => Entry(j, Mean(m, nbrs, j)))
  }

  /** The entries of `s` whose movie the row `row` holds 0 for, in the order of `s`. */
  function Unrated(s: seq<Entry>, row: seq<real>): (r: seq<Entry>)
    requires forall x :: x in s ==> 0 <= x.id < |row|
    ensures |r| <= |s|
    ensures forall x :: x in r <==> x in s && row[x.id] == 0.0
    ensures Ranked(s) ==> Ranked(r)
    ensures UniqueIds(s) ==> UniqueIds(r)
  {
    if s == [] then []
    else
      assert forall x :: x in s[1..] ==> x in s;
      var rest := Unrated(s[1..], row);
      if row[s[0].id] != 0.0 then
        SuffixKeepsOrder(s);
        rest
      else
        KeepHead(s, rest);
        [s[0]] + rest
  }

  /** How many entries `head(n)` keeps of `len`. */
  function HeadCount(len: nat, n: int): (c: nat)
    ensures c <= len
    ensures n >= 0 ==> c == if n < len then n else len
    ensures n < 0 ==> c == if len + n < 0 then 0 else len + n
  {
    if n >= 0 then (if n < len then n else len)
    else if len + n < 0 then 0 else len + n
  }

  /** The prefix `head(n)` returns. */
  function Head(s: seq<Entry>, n: int): (r: seq<Entry>)
    ensures |r| == HeadCount(|s|, n) && r == s[..|r|]
    ensures Ranked(s) ==> Ranked(r)
    ensures UniqueIds(s) ==> UniqueIds(r)
  {
    s[..HeadCount(|s|, n)]
  }

  /** `head` with a count n ≥ 0 keeps the first n entries, or the whole list when it is shorter. */
  lemma HeadTakesFirst(s: seq<Entry>, n: int)
    requires n >= 0
    ensures Head(s, n) + s[|Head(s, n)|..] == s
    ensures |Head(s, n)| == n || Head(s, n) == s
    ensures |Head(s, n)| <= n
  {
  }

  /**
   * `head` with a negative count cuts off the last |n| entries: what it keeps
   * and what it drops make up the whole list, and exactly min(|n|, |s|)
   * entries are dropped.
   */
  lemma HeadDropsLast(s: seq<Entry>, n: int)
    requires n < 0
    ensures Head(s, n) + s[|Head(s, n)|..] == s
    ensures |s[|Head(s, n)|..]| == if -n < |s| then -n else |s|
  {
  }

  /** Averaging changes nothing when there is only one neighbour. */
  lemma SingleNeighbourScore(m: Matrix, n: int, j: nat)
    requires Shaped(m) && j < |m.movies| && 0 <= n < |m.users|
    ensures Mean(m, [n], j) == m.cells[n][j]
  {
    assert [n][1..] == [];
    assert ColumnSum(m, [n], j) == m.cells[n][j] + ColumnSum(m, [], j);
  }

  lemma {:induction false} ColumnSumBounds(m: Matrix, nbrs: seq<int>, j: nat, lo: real, hi: real)
    requires Shaped(m) && j < |m.movies| && RowsOf(m, nbrs)
    requires forall k :: 0 <= k < |nbrs| ==> lo <= m.cells[nbrs[k]][j] <= hi
    ensures lo * (|nbrs| as real) <= ColumnSum(m, nbrs, j) <= hi * (|nbrs| as real)
  {
    if nbrs != [] {
      ColumnSumBounds(m, nbrs[1..], j, lo, hi);
      var c := (|nbrs| - 1) as real;
      assert lo * (c + 1.0) == lo * c + lo;
      assert hi * (c + 1.0) == hi * c + hi;
    }
  }

  lemma MeanBetween(lo: real, hi: real, s: real, n: real, q: real)
    requires n > 0.0 && lo * n <= s <= hi * n && q * n == s
    ensures lo <= q <= hi
  {
  }

  /** A score lies between the smallest and the largest rating the neighbours gave the movie. */
  lemma ScoreWithinNeighbourRatings(m: Matrix, nbrs: seq<int>, j: nat, lo: real, hi: real)
    requires Shaped(m) && j < |m.movies| && RowsOf(m, nbrs) && nbrs != []
    requires forall k :: 0 <= k < |nbrs| ==> lo <= m.cells[nbrs[k]][j] <= hi
    ensures lo <= Mean(m, nbrs, j) <= hi
  {
    ColumnSumBounds(m, nbrs, j, lo, hi);
    MeanTimesCount(m, nbrs, j);
    MeanBetween(lo, hi, ColumnSum(m, nbrs, j), |nbrs| as real, Mean(m, nbrs, j));
  }

  /** Only the neighbours' rows count: rows of other users do not change a score. */
  lemma {:induction false} ScoreReadsOnlyNeighbours(m: Matrix, m': Matrix, nbrs: seq<int>, j: nat)
    requires Shaped(m) && Shaped(m') && |m'.users| == |m.users| && |m'.movies| == |m.movies|
    requires j < |m.movies| && RowsOf(m, nbrs)
    requires forall k :: 0 <= k < |nbrs| ==> m'.cells[nbrs[k]][j] == m.cells[nbrs[k]][j]
    ensures Mean(m', nbrs, j) == Mean(m, nbrs, j)
  {
    ColumnSumAgrees(m, m', nbrs, j);
  }

  lemma {:induction false} ColumnSumAgrees(m: Matrix, m': Matrix, nbrs: seq<int>, j: nat)
    requires Shaped(m) && Shaped(m') && |m'.users| == |m.users| && |m'.movies| == |m.movies|
    requires j < |m.movies| && RowsOf(m, nbrs)
    requires forall k :: 0 <= k < |nbrs| ==> m'.cells[nbrs[k]][j] == m.cells[nbrs[k]][j]
    ensures ColumnSum(m', nbrs, j) == ColumnSum(m, nbrs, j)
  {
    if nbrs != [] {
      ColumnSumAgrees(m, m', nbrs[1..], j);
    }
  }
}
