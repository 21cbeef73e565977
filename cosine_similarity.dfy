/**
 * Stage 3: pairwise cosine similarity between the users' normalised rows.
 * The cosine dot(a, b) / (‖a‖ ‖b‖) needs square roots, which `real` does not
 * have; the model therefore computes its square,
 * dot(a, b)² / (‖a‖² ‖b‖²), which needs only products and one division.
 * `CosineOfSquares` shows that for every real cosine value c the square is
 * c * c and that, on the non-negative rows min-max scaling produces, c is
 * non-negative, and `SquareOrder` that squaring keeps the order of
 * non-negative numbers. `Neighbourhood.NeighboursInCosineOrder` and
 * `Neighbourhood.NeighboursAreMostSimilarByCosine` carry this to the choice of
 * neighbours: they are ordered, and top-k, by the true cosine.
 * A row whose norm is 0 has similarity 0 with every row, as in a cosine
 * similarity that leaves zero rows unnormalised.
 */
module CosineSimilarity {
  import opened RealArith

  /** The dot product; on non-negative rows it is non-negative. */
  function Dot(a: seq<real>, b: seq<real>): (r: real)
    requires |a| == |b|
    ensures NonNegative(a) && NonNegative(b) ==> r >= 0.0
  {
    if a == [] then 0.0
    else
      assert NonNegative(a) && NonNegative(b) ==> NonNegative(a[1..]) && NonNegative(b[1..]);
      a[0] * b[0] + Dot(a[1..], b[1..])
  }

  /** a · a is never negative, and it is 0 exactly for the all-zero row. */
  lemma {:induction false} DotSelfZeroIff(a: seq<real>)
    ensures Dot(a, a) >= 0.0
    ensures Dot(a, a) == 0.0 <==> AllZero(a)
  {
    if a != [] {
      DotSelfZeroIff(a[1..]);
      SquarePlusZero(a[0], Dot(a[1..], a[1..]));
      assert AllZero(a) <==> a[0] == 0.0 && AllZero(a[1..]) by {
        assert forall i :: 1 <= i < |a| ==> a[i] == a[1..][i - 1];
      }
    }
  }

  /** The squared Euclidean norm ‖a‖²: never negative, and 0 exactly for the all-zero row. */
  function NormSq(a: seq<real>): (r: real)
    ensures r >= 0.0
    ensures r == 0.0 <==> AllZero(a)
  {
    DotSelfZeroIff(a);
    Dot(a, a)
  }

  /** (d / p)(d / q), that is d² / (p q), and 0 when p or q is 0. */
  function SquaredRatio(d: real, p: real, q: real): (r: real)
    ensures p != 0.0 && q != 0.0 ==> r == (d * d) / (p * q)
    ensures p >= 0.0 && q >= 0.0 ==> r >= 0.0
  {
    if p == 0.0 || q == 0.0 then 0.0
    else
      ProductOfQuotients(d, p, d, q);
      if p > 0.0 && q > 0.0 then
        QuotientsSameSign(d, p, q);
        (d / p) * (d / q)
      else (d / p) * (d / q)
  }

  /**
   * The squared cosine similarity dot(a, b)² / (‖a‖² ‖b‖²). It is never
   * negative, and a row whose norm is 0 has similarity 0 with every row, in
   * both directions.
   */
  function CosineSq(a: seq<real>, b: seq<real>): (r: real)
    requires |a| == |b|
    ensures r >= 0.0
    ensures AllZero(a) || AllZero(b) ==> r == 0.0
  {
    SquaredRatio(Dot(a, b), NormSq(a), NormSq(b))
  }

  predicate NonNegative(a: seq<real>)
  {
    forall i :: 0 <= i < |a| ==> 0.0 <= a[i]
  }

  predicate AllZero(a: seq<real>)
  {
    forall i :: 0 <= i < |a| ==> a[i] == 0.0
  }

  lemma {:induction false} DotSymmetric(a: seq<real>, b: seq<real>)
    requires |a| == |b|
    ensures Dot(a, b) == Dot(b, a)
  {
    if a != [] {
      DotSymmetric(a[1..], b[1..]);
    }
  }

  /** Similarity is symmetric. */
  lemma CosineSqSymmetric(a: seq<real>, b: seq<real>)
    requires |a| == |b|
    ensures CosineSq(a, b) == CosineSq(b, a)
  {
    DotSymmetric(a, b);
  }

  /** A row with a nonzero entry has similarity 1 with itself. */
  lemma SelfSimilarityIsOne(a: seq<real>)
    requires !AllZero(a)
    ensures CosineSq(a, a) == 1.0
  {
    SelfQuotient(NormSq(a));
  }

  /** `na` is the Euclidean norm of `a`. */
  predicate IsNorm(a: seq<real>, na: real)
  {
    na >= 0.0 && na * na == NormSq(a)
  }

  /**
   * `c` is the cosine similarity of `a` and `b`, given their norms `na` and
   * `nb`: dot(a, b) / (na nb), and 0 when a norm is 0.
   */
  predicate IsCosine(a: seq<real>, b: seq<real>, na: real, nb: real, c: real)
    requires |a| == |b|
  {
    && IsNorm(a, na) && IsNorm(b, nb)
    && c == if na == 0.0 || nb == 0.0 then 0.0 else Dot(a, b) / (na * nb)
  }

  /** The model's similarity is the square of the cosine, which is non-negative on non-negative rows. */
  lemma CosineOfSquares(a: seq<real>, b: seq<real>, na: real, nb: real, c: real)
    requires |a| == |b| && IsCosine(a, b, na, nb, c)
    ensures c * c == CosineSq(a, b)
    ensures NonNegative(a) && NonNegative(b) ==> c >= 0.0
  {
    if na != 0.0 && nb != 0.0 {
      var d, A, B := Dot(a, b), NormSq(a), NormSq(b);
      SquaredCosine(d, A, B, na, nb, c);
      if NonNegative(a) && NonNegative(b) {
        ProductPositive(na, nb, na * nb);
        QuotientNonNegative(d, na * nb);
      }
    }
  }

  /** With norms na = √A and nb = √B, the square of d / (na nb) is d² / (A B). */
  lemma SquaredCosine(d: real, A: real, B: real, na: real, nb: real, c: real)
    requires na > 0.0 && nb > 0.0 && na * na == A && nb * nb == B
    requires c == d / (na * nb)
    ensures c * c == SquaredRatio(d, A, B)
  {
    ProductPositive(na, na, A);
    ProductPositive(nb, nb, B);
    ProductPositive(na, nb, na * nb);
    var P := na * nb;
    ProductOfQuotients(d, P, d, P);
    ProductRearrange(na, nb, na, nb, A, B);
    assert P * P == A * B;
  }

  /** Squaring keeps the order of non-negative numbers, so ranking by the square ranks by the cosine. */
  lemma SquareOrder(c1: real, c2: real)
    requires c1 >= 0.0 && c2 >= 0.0
    ensures c1 <= c2 <==> c1 * c1 <= c2 * c2
    ensures c1 == c2 <==> c1 * c1 == c2 * c2
  {
    if c1 < c2 {
      SquareLess(c1, c2);
    } else if c2 < c1 {
      SquareLess(c2, c1);
    }
  }

  /** The full users × users similarity table of the rows of `rows`. */
  function SimilarityMatrix(rows: seq<seq<real>>, width: nat): (sim: seq<seq<real>>)
    requires forall i :: 0 <= i < |rows| ==> |rows[i]| == width
    ensures |sim| == |rows|
    ensures forall i :: 0 <= i < |rows| ==> |sim[i]| == |rows|
    ensures forall i, j :: 0 <= i < |rows| && 0 <= j < |rows| ==> sim[i][j] >= 0.0
  {
    var n := |rows|;
    seq(n, i requires 0 <= i < n =>
      seq(n, j requires 0 <= j < n => CosineSq(rows[i], rows[j])))
  }

  /** On non-negative rows, the true cosines are the non-negative square roots of the table's entries. */
  lemma TableOfCosineRoots(rows: seq<seq<real>>, width: nat, norms: seq<real>, cos: seq<seq<real>>)
    requires forall i :: 0 <= i < |rows| ==> |rows[i]| == width && NonNegative(rows[i])
    requires |norms| == |rows| && |cos| == |rows|
    requires forall a :: 0 <= a < |cos| ==> |cos[a]| == |rows|
    requires forall a, b :: 0 <= a < |rows| && 0 <= b < |rows| ==>
               IsCosine(rows[a], rows[b], norms[a], norms[b], cos[a][b])
    ensures forall a, b :: 0 <= a < |rows| && 0 <= b < |rows| ==>
              cos[a][b] >= 0.0 && cos[a][b] * cos[a][b] == SimilarityMatrix(rows, width)[a][b]
  {
    forall a, b | 0 <= a < |rows| && 0 <= b < |rows|
      ensures cos[a][b] >= 0.0 && cos[a][b] * cos[a][b] == SimilarityMatrix(rows, width)[a][b]
    {
      CosineOfSquares(rows[a], rows[b], norms[a], norms[b], cos[a][b]);
    }
  }

  /** The similarity table is symmetric. */
  lemma SimilarityMatrixSymmetric(rows: seq<seq<real>>, width: nat, i: nat, j: nat)
    requires forall k :: 0 <= k < |rows| ==> |rows[k]| == width
    requires i < |rows| && j < |rows|
    ensures SimilarityMatrix(rows, width)[i][j] == SimilarityMatrix(rows, width)[j][i]
  {
    CosineSqSymmetric(rows[i], rows[j]);
  }
}
