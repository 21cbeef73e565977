/**
 * Stage 4: choosing the users most similar to the target. The target's
 * column of the similarity table is ranked from most to least similar and
 * the first `NeighbourhoodSize` users other than the target are kept.
 *
 * Users are identified here by their row position; rows are in ascending
 * user-id order, so the ascending-position tie-break of `Ranking` is the
 * ascending-user-id tie-break.
 *
 * `SliceNeighbours` is the selection as the recommender writes it: drop the
 * first ranked user (expected to be the target, whose self-similarity is
 * normally the largest) and keep the next five. `Neighbours` leaves the
 * target out by position instead; `SliceAgreesWhenTargetFirst` shows the two
 * coincide whenever the target does rank first, and
 * `SliceIncludesZeroRowTarget` exhibits a target that does not.
 */
module Neighbourhood {
  import opened Ranking
  import opened CosineSimilarity

  const NeighbourhoodSize: nat := 5

  /** A users × users table. */
  predicate Square(sim: seq<seq<real>>)
  {
    forall i :: 0 <= i < |sim| ==> |sim[i]| == |sim|
  }

  /** Every user's similarity to user `t`, as entries keyed by similarity. */
  function SimilarityColumn(sim: seq<seq<real>>, t: nat): (col: seq<Entry>)
    requires Square(sim) && t < |sim|
    ensures |col| == |sim|
    ensures forall i :: 0 <= i < |sim| ==> col[i] == Entry(i, sim[i][t])
  {
    seq(|sim|, i requires 0 <= i < |sim| => Entry(i, sim[i][t]))
  }

  /** `s` holds entries of column `t` for users other than `t`. */
  predicate OthersOf(s: seq<Entry>, sim: seq<seq<real>>, t: nat)
    requires Square(sim) && t < |sim|
  {
    forall x :: x in s ==> 0 <= x.id < |sim| && x.id != t && x.key == sim[x.id][t]
  }

  /** The column without the target is the column with its target entry cut out. */
  lemma ColumnWithoutTarget(sim: seq<seq<real>>, t: nat)
    requires Square(sim) && t < |sim|
    ensures var col := SimilarityColumn(sim, t);
            Without(col, t) == col[..t] + col[t + 1..]
  {
    var col := SimilarityColumn(sim, t);
    assert col == col[..t] + ([col[t]] + col[t + 1..]);
    WithoutConcat(col[..t], [col[t]] + col[t + 1..], t);
    WithoutConcat([col[t]], col[t + 1..], t);
    assert [col[t]][1..] == [];
    WithoutAbsent(col[..t], t);
    WithoutAbsent(col[t + 1..], t);
  }

  /** Leaving the target out removes exactly its own entry. */
  lemma OthersMultiset(sim: seq<seq<real>>, t: nat)
    requires Square(sim) && t < |sim|
    ensures var col := SimilarityColumn(sim, t);
            multiset(Without(col, t)) == multiset(col) - multiset{col[t]}
  {
    var col := SimilarityColumn(sim, t);
    ColumnWithoutTarget(sim, t);
    RemoveAtMultiset(col, t);
  }

  /** Every ranked entry of the column names a user. */
  lemma RankedColumn(sim: seq<seq<real>>, t: nat)
    requires Square(sim) && t < |sim|
    ensures var r := Rank(SimilarityColumn(sim, t));
            |r| == |sim| && forall k :: 0 <= k < |r| ==> 0 <= r[k].id < |sim|
  {
    var col := SimilarityColumn(sim, t);
    var r := Rank(col);
    forall k | 0 <= k < |r|
      ensures 0 <= r[k].id < |sim|
    {
      assert r[k] in multiset(col);
    }
  }

  /** The entries of the column other than the target's. */
  lemma OthersOfColumn(sim: seq<seq<real>>, t: nat)
    requires Square(sim) && t < |sim|
    ensures var col := SimilarityColumn(sim, t);
            var others := col[..t] + col[t + 1..];
            && |others| == |sim| - 1
            && UniqueIds(others) && OthersOf(others, sim, t)
            && multiset(others) == multiset(col) - multiset{Entry(t, sim[t][t])}
  {
    var col := SimilarityColumn(sim, t);
    var others := col[..t] + col[t + 1..];
    RemoveAtMultiset(col, t);
    assert UniqueIds(col);
    RemoveUniqueId(col, t);
    forall x | x in others
      ensures 0 <= x.id < |sim| && x.id != t && x.key == sim[x.id][t]
    {
      var q :| 0 <= q < |others| && others[q] == x;
      assert x == if q < t then col[q] else col[q + 1];
    }
  }

  /** The other users, ranked by similarity to `t`, and what is known about them. */
  lemma RankedOthers(sim: seq<seq<real>>, t: nat)
    requires Square(sim) && t < |sim|
    ensures var r := Rank(Without(SimilarityColumn(sim, t), t));
            |r| == |sim| - 1 && UniqueIds(r) && OthersOf(r, sim, t)
  {
    var col := SimilarityColumn(sim, t);
    var others := col[..t] + col[t + 1..];
    ColumnWithoutTarget(sim, t);
    OthersOfColumn(sim, t);
    var r := Rank(others);
    PermutationUniqueIds(others, r);
    forall x | x in r
      ensures 0 <= x.id < |sim| && x.id != t && x.key == sim[x.id][t]
    {
      assert x in multiset(others);
    }
  }

  /** The first five of the ranked other users, entry by entry. */
  lemma TopOthers(sim: seq<seq<real>>, t: nat)
    requires Square(sim) && t < |sim|
    ensures var top := Take(Rank(Without(SimilarityColumn(sim, t), t)), NeighbourhoodSize);
            && |top| == (if |sim| - 1 < NeighbourhoodSize then |sim| - 1 else NeighbourhoodSize)
            && (forall k :: 0 <= k < |top| ==>
                  0 <= top[k].id < |sim| && top[k].id != t && top[k].key == sim[top[k].id][t])
            && (forall k, k' :: 0 <= k < k' < |top| ==>
                  top[k].id != top[k'].id && top[k].key >= top[k'].key)
  {
    var r := Rank(Without(SimilarityColumn(sim, t), t));
    var top := Take(r, NeighbourhoodSize);
    assert |r| == |sim| - 1 && UniqueIds(r) && OthersOf(r, sim, t) by {
      RankedOthers(sim, t);
    }
    forall k | 0 <= k < |top|
      ensures 0 <= top[k].id < |sim| && top[k].id != t && top[k].key == sim[top[k].id][t]
    {
      assert top[k] == r[k] && r[k] in r;
    }
    forall k, k' | 0 <= k < k' < |top|
      ensures top[k].id != top[k'].id && top[k].key >= top[k'].key
    {
      assert top[k] == r[k] && top[k'] == r[k'];
      assert Precedes(r[k], r[k']) && r[k].id != r[k'].id;
    }
  }

  /**
   * The row positions of the (at most) five users most similar to `t`,
   * most similar first.
   */
  function Neighbours(sim: seq<seq<real>>, t: nat): (nbrs: seq<int>)
    requires Square(sim) && t < |sim|
    ensures |nbrs| == if |sim| - 1 < NeighbourhoodSize then |sim| - 1 else NeighbourhoodSize
    ensures forall k :: 0 <= k < |nbrs| ==> 0 <= nbrs[k] < |sim| && nbrs[k] != t
    ensures forall k, k' :: 0 <= k < k' < |nbrs| ==> nbrs[k] != nbrs[k']
    ensures forall k, k' :: 0 <= k < k' < |nbrs| ==> sim[nbrs[k]][t] >= sim[nbrs[k']][t]
  {
    TopOthers(sim, t);
    Ids(Take(Rank(Without(SimilarityColumn(sim, t), t)), NeighbourhoodSize))
  }

  /** Every user other than the target is among the ranked others. */
  lemma OtherIsRanked(sim: seq<seq<real>>, t: nat, i: nat)
    requires Square(sim) && t < |sim| && i < |sim| && i != t
    ensures Entry(i, sim[i][t]) in Rank(Without(SimilarityColumn(sim, t), t))
  {
    var col := SimilarityColumn(sim, t);
    OthersMultiset(sim, t);
    assert col[i] == Entry(i, sim[i][t]);
    assert col[i] in multiset(Rank(Without(col, t)));
  }

  /**
   * Top-k: a user other than the target who was not chosen is no more
   * similar to the target than any chosen neighbour, and on equal
   * similarity comes after it.
   */
  lemma NeighboursAreMostSimilar(sim: seq<seq<real>>, t: nat, i: nat)
    requires Square(sim) && t < |sim|
    requires i < |sim| && i != t && i !in Neighbours(sim, t)
    ensures forall k :: 0 <= k < |Neighbours(sim, t)| ==>
              var n := Neighbours(sim, t)[k];
              sim[n][t] > sim[i][t] || (sim[n][t] == sim[i][t] && n < i)
  {
    var r := Rank(Without(SimilarityColumn(sim, t), t));
    var top := Take(r, NeighbourhoodSize);
    var nbrs := Neighbours(sim, t);
    assert nbrs == Ids(top);
    var x := Entry(i, sim[i][t]);
    OtherIsRanked(sim, t, i);
    assert x !in top by {
      forall p | 0 <= p < |top|
        ensures top[p] != x
      {
        assert nbrs[p] == top[p].id;
      }
    }
    OmittedFollowsPrefix(r, |top|, x);
    TopOthers(sim, t);
    forall k | 0 <= k < |nbrs|
      ensures sim[nbrs[k]][t] > sim[i][t] || (sim[nbrs[k]][t] == sim[i][t] && nbrs[k] < i)
    {
      assert Precedes(top[k], x);
      assert nbrs[k] == top[k].id && nbrs[k] != i;
    }
  }

  /** `c` is the non-negative square root of `s`. */
  predicate IsRoot(c: real, s: real)
  {
    c >= 0.0 && c * c == s
  }

  /**
   * `cos` holds the non-negative square root of every entry of `sim`: the
   * table of true cosines, of which `sim` holds the squares.
   */
  predicate RootsOf(cos: seq<seq<real>>, sim: seq<seq<real>>)
    requires Square(sim)
  {
    && |cos| == |sim|
    && (forall a :: 0 <= a < |cos| ==> |cos[a]| == |sim|)
    && forall a, b :: 0 <= a < |sim| && 0 <= b < |sim| ==> IsRoot(cos[a][b], sim[a][b])
  }

  /** Non-negative roots compare as their squares do. */
  lemma RootOrder(x: real, y: real, sx: real, sy: real)
    requires IsRoot(x, sx) && IsRoot(y, sy)
    ensures sx >= sy ==> x >= y
    ensures sx == sy ==> x == y
    ensures sx > sy ==> x > y
  {
    SquareOrder(x, y);
  }

  /** The neighbours, chosen on squared similarities, are in non-increasing order of true cosine. */
  lemma NeighboursInCosineOrder(sim: seq<seq<real>>, cos: seq<seq<real>>, t: nat)
    requires Square(sim) && t < |sim| && RootsOf(cos, sim)
    ensures forall k, k' :: 0 <= k < k' < |Neighbours(sim, t)| ==>
              cos[Neighbours(sim, t)[k]][t] >= cos[Neighbours(sim, t)[k']][t]
  {
    var nbrs := Neighbours(sim, t);
    forall k, k' | 0 <= k < k' < |nbrs|
      ensures cos[nbrs[k]][t] >= cos[nbrs[k']][t]
    {
      var a, b := nbrs[k], nbrs[k'];
      RootOrder(cos[a][t], cos[b][t], sim[a][t], sim[b][t]);
    }
  }

  /**
   * Top-k by true cosine: a user other than the target who was not chosen
   * has a cosine no larger than any neighbour's, and on an equal cosine a
   * larger id.
   */
  lemma NeighboursAreMostSimilarByCosine(sim: seq<seq<real>>, cos: seq<seq<real>>, t: nat, i: nat)
    requires Square(sim) && t < |sim| && RootsOf(cos, sim)
    requires i < |sim| && i != t && i !in Neighbours(sim, t)
    ensures forall k :: 0 <= k < |Neighbours(sim, t)| ==>
              var n := Neighbours(sim, t)[k];
              cos[n][t] > cos[i][t] || (cos[n][t] == cos[i][t] && n < i)
  {
    var nbrs := Neighbours(sim, t);
    NeighboursAreMostSimilar(sim, t, i);
    forall k | 0 <= k < |nbrs|
      ensures cos[nbrs[k]][t] > cos[i][t] || (cos[nbrs[k]][t] == cos[i][t] && nbrs[k] < i)
    {
      var n := nbrs[k];
      RootOrder(cos[n][t], cos[i][t], sim[n][t], sim[i][t]);
    }
  }

  /** The selection as written in the source: skip the first ranked user, keep the next five. */
  function SliceNeighbours(sim: seq<seq<real>>, t: nat): (nbrs: seq<int>)
    requires Square(sim) && t < |sim|
    ensures |nbrs| == if |sim| - 1 < NeighbourhoodSize then |sim| - 1 else NeighbourhoodSize
    ensures forall k :: 0 <= k < |nbrs| ==> 0 <= nbrs[k] < |sim|
  {
    RankedColumn(sim, t);
    Ids(Take(Rank(SimilarityColumn(sim, t))[1..], NeighbourhoodSize))
  }

  /** Ranking a column of positions with entry `t` ranked first, then dropping it, ranks the rest. */
  lemma RankTailWithout(col: seq<Entry>, t: nat)
    requires t < |col| && forall i :: 0 <= i < |col| ==> col[i].id == i
    requires multiset(Without(col, t)) == multiset(col) - multiset{col[t]}
    requires Rank(col)[0].id == t
    ensures Rank(col)[1..] == Rank(Without(col, t))
  {
    var r := Rank(col);
    assert r[0] == col[t] by {
      assert r[0] in multiset(col);
    }
    RankedTail(r, Rank(Without(col, t)));
  }

  /** When the target ranks first, the rest of the ranking is the ranking of the others. */
  lemma TargetFirstTail(sim: seq<seq<real>>, t: nat)
    requires Square(sim) && t < |sim|
    requires Rank(SimilarityColumn(sim, t))[0].id == t
    ensures Rank(SimilarityColumn(sim, t))[1..] == Rank(Without(SimilarityColumn(sim, t), t))
  {
    OthersMultiset(sim, t);
    RankTailWithout(SimilarityColumn(sim, t), t);
  }

  /** When the target ranks first in its own column, the slice picks exactly the neighbours. */
  lemma SliceAgreesWhenTargetFirst(sim: seq<seq<real>>, t: nat)
    requires Square(sim) && t < |sim|
    requires Rank(SimilarityColumn(sim, t))[0].id == t
    ensures SliceNeighbours(sim, t) == Neighbours(sim, t)
  {
    TargetFirstTail(sim, t);
  }

  /** A column in which every user is equally similar to the target is already ranked, by position. */
  lemma FlatColumnRanksByPosition(sim: seq<seq<real>>, t: nat)
    requires Square(sim) && t < |sim|
    requires forall i :: 0 <= i < |sim| ==> sim[i][t] == 0.0
    ensures Rank(SimilarityColumn(sim, t)) == SimilarityColumn(sim, t)
  {
    var col := SimilarityColumn(sim, t);
    assert Ranked(col);
    RankedUnique(Rank(col), col);
  }

  /**
   * A target whose normalised row is all zeros has similarity 0 with every
   * user, itself included; ranked by position, a target that is not the
   * lowest user id then lands inside the slice and becomes its own
   * neighbour.
   */
  lemma SliceIncludesZeroRowTarget(rows: seq<seq<real>>, width: nat, t: nat)
    requires forall i :: 0 <= i < |rows| ==> |rows[i]| == width
    requires t < |rows| && AllZero(rows[t])
    requires 1 <= t <= NeighbourhoodSize
    ensures t in SliceNeighbours(SimilarityMatrix(rows, width), t)
    ensures t !in Neighbours(SimilarityMatrix(rows, width), t)
  {
    var sim := SimilarityMatrix(rows, width);
    forall i | 0 <= i < |sim|
      ensures sim[i][t] == 0.0
    {
      assert sim[i][t] == CosineSq(rows[i], rows[t]);
    }
    FlatColumnRanksByPosition(sim, t);
    var col := SimilarityColumn(sim, t);
    assert Take(col[1..], NeighbourhoodSize)[t - 1] == col[t];
    assert SliceNeighbours(sim, t)[t - 1] == t;
  }
}
