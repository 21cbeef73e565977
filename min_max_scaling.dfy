/**
 * Stage 2: every column of the rating table is rescaled on its own into
 * [0, 1] by min-max scaling, x ↦ (x − min) / (max − min). As in a min-max
 * scaler that guards against a zero range, a column whose minimum equals its
 * maximum is divided by 1 instead of 0, so all of its cells become 0.
 */
module MinMaxScaling {
  import opened RatingMatrix
  import opened RealArith

  /** Column `j` of a table whose rows all have more than `j` cells. */
  function Column(cells: seq<seq<real>>, j: nat): (c: seq<real>)
    requires forall i :: 0 <= i < |cells| ==> j < |cells[i]|
    ensures |c| == |cells|
    ensures forall i :: 0 <= i < |cells| ==> c[i] == cells[i][j]
  {
    seq(|cells|, i requires 0 <= i < |cells| => cells[i][j])
  }

  function Min(s: seq<real>): (r: real)
    requires s != []
    ensures r in s
    ensures forall i :: 0 <= i < |s| ==> r <= s[i]
  {
    if |s| == 1 then s[0]
    else
      var rest := Min(s[1..]);
      assert forall i :: 1 <= i < |s| ==> s[i] == s[1..][i - 1];
      if s[0] <= rest then s[0] else rest
  }

  function Max(s: seq<real>): (r: real)
    requires s != []
    ensures r in s
    ensures forall i :: 0 <= i < |s| ==> s[i] <= r
  {
    if |s| == 1 then s[0]
    else
      var rest := Max(s[1..]);
      assert forall i :: 1 <= i < |s| ==> s[i] == s[1..][i - 1];
      if s[0] >= rest then s[0] else rest
  }

  /** The divisor of the scaler: the column's range, or 1 when the range is 0, so never 0. */
  function Range(lo: real, hi: real): (d: real)
    ensures d != 0.0
    ensures lo <= hi ==> d > 0.0
    ensures hi != lo ==> d == hi - lo
  {
    if hi - lo == 0.0 then 1.0 else hi - lo
  }

  /**
   * One scaled value: the column minimum goes to 0, the maximum of a
   * non-constant column to 1, and every value in between into [0, 1].
   */
  function Scale(x: real, lo: real, hi: real): (r: real)
    ensures lo <= x <= hi ==> 0.0 <= r <= 1.0
    ensures x == lo ==> r == 0.0
    ensures x == hi && hi != lo ==> r == 1.0
    ensures hi == lo ==> r == x - lo
  {
    var d := Range(lo, hi);
    if x == hi && hi != lo then
      SelfQuotient(d);
      (x - lo) / d
    else if lo <= x <= hi then
      UnitQuotient(x - lo, d);
      (x - lo) / d
    else (x - lo) / d
  }

  /** The smallest value of column `j`: no larger than any cell of it, and one of them. */
  function ColumnMin(m: Matrix, j: nat): (lo: real)
    requires Shaped(m) && j < |m.movies|
    ensures forall i :: 0 <= i < |m.users| ==> lo <= m.cells[i][j]
    ensures m.users != [] ==> exists i :: 0 <= i < |m.users| && m.cells[i][j] == lo
  {
    if m.cells == [] then 0.0
    else
      var c := Column(m.cells, j);
      assert Min(c) in c;
      Min(c)
  }

  /** The largest value of column `j`: no smaller than any cell of it, and one of them. */
  function ColumnMax(m: Matrix, j: nat): (hi: real)
    requires Shaped(m) && j < |m.movies|
    ensures forall i :: 0 <= i < |m.users| ==> m.cells[i][j] <= hi
    ensures m.users != [] ==> exists i :: 0 <= i < |m.users| && m.cells[i][j] == hi
  {
    if m.cells == [] then 0.0
    else
      var c := Column(m.cells, j);
      assert Max(c) in c;
      Max(c)
  }

  /** Rescales every column of `m` by its own minimum and maximum. */
  function Normalize(m: Matrix): (n: Matrix)
    requires Shaped(m)
    ensures Shaped(n)
    ensures n.users == m.users && n.movies == m.movies
  {
    var cols := |m.movies|;
    Matrix(m.users, m.movies,
      seq(|m.cells|, i requires 0 <= i < |m.cells| =>
        seq(cols, j requires 0 <= j < cols => Scale(m.cells[i][j], ColumnMin(m, j), ColumnMax(m, j)))))
  }

  /** The scaled value of one cell, written in terms of its column's extremes. */
  lemma NormalizedCell(m: Matrix, i: nat, j: nat)
    requires Shaped(m) && i < |m.users| && j < |m.movies|
    ensures ColumnMin(m, j) <= m.cells[i][j] <= ColumnMax(m, j)
    ensures var lo, hi := ColumnMin(m, j), ColumnMax(m, j);
            Normalize(m).cells[i][j] == if hi == lo then 0.0 else (m.cells[i][j] - lo) / (hi - lo)
  {
    var lo, hi := ColumnMin(m, j), ColumnMax(m, j);
    assert Normalize(m).cells[i][j] == Scale(m.cells[i][j], lo, hi);
  }

  /** Every normalised cell lies in [0, 1]. */
  lemma NormalizedInUnitInterval(m: Matrix, i: nat, j: nat)
    requires Shaped(m) && i < |m.users| && j < |m.movies|
    ensures 0.0 <= Normalize(m).cells[i][j] <= 1.0
  {
    NormalizedCell(m, i, j);
    var lo, hi := ColumnMin(m, j), ColumnMax(m, j);
    if hi != lo {
      UnitQuotient(m.cells[i][j] - lo, hi - lo);
    }
  }

  /** A column in which every user has the same value normalises to 0 for every user. */
  lemma ConstantColumnIsZero(m: Matrix, j: nat)
    requires Shaped(m) && j < |m.movies|
    requires forall i, i' :: 0 <= i < |m.users| && 0 <= i' < |m.users| ==> m.cells[i][j] == m.cells[i'][j]
    ensures forall i :: 0 <= i < |m.users| ==> Normalize(m).cells[i][j] == 0.0
  {
    forall i | 0 <= i < |m.users|
      ensures Normalize(m).cells[i][j] == 0.0
    {
      NormalizedCell(m, i, j);
      var c := Column(m.cells, j);
      var k :| 0 <= k < |c| && c[k] == Min(c);
      var k' :| 0 <= k' < |c| && c[k'] == Max(c);
      assert m.cells[k][j] == m.cells[k'][j];
      assert ColumnMin(m, j) == ColumnMax(m, j);
    }
  }

  /** In a column with distinct values the minimum maps to 0 and the maximum to 1. */
  lemma ExtremesMapToEnds(m: Matrix, i: nat, j: nat)
    requires Shaped(m) && i < |m.users| && j < |m.movies|
    ensures m.cells[i][j] == ColumnMin(m, j) ==> Normalize(m).cells[i][j] == 0.0
    ensures m.cells[i][j] == ColumnMax(m, j) && ColumnMax(m, j) != ColumnMin(m, j) ==>
              Normalize(m).cells[i][j] == 1.0
  {
    NormalizedCell(m, i, j);
    var lo, hi := ColumnMin(m, j), ColumnMax(m, j);
    if m.cells[i][j] == hi && hi != lo {
      SelfQuotient(hi - lo);
    }
  }

  /** Scaling keeps the order of the users within each column. */
  lemma NormalizeMonotone(m: Matrix, i: nat, i': nat, j: nat)
    requires Shaped(m) && i < |m.users| && i' < |m.users| && j < |m.movies|
    requires m.cells[i][j] <= m.cells[i'][j]
    ensures Normalize(m).cells[i][j] <= Normalize(m).cells[i'][j]
  {
    NormalizedCell(m, i, j);
    NormalizedCell(m, i', j);
    var lo, hi := ColumnMin(m, j), ColumnMax(m, j);
    if hi != lo {
      MonotoneQuotient(m.cells[i][j] - lo, m.cells[i'][j] - lo, hi - lo);
    }
  }

  /** A scaled row has no negative entry, which is what makes every cosine similarity non-negative. */
  lemma NormalizedRowNonNegative(m: Matrix, i: nat)
    requires Shaped(m) && i < |m.users|
    ensures forall j :: 0 <= j < |m.movies| ==> 0.0 <= Normalize(m).cells[i][j]
  {
    forall j | 0 <= j < |m.movies|
      ensures 0.0 <= Normalize(m).cells[i][j]
    {
      NormalizedInUnitInterval(m, i, j);
    }
  }
}
