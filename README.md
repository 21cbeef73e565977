# Movie recommender: a Dafny model of the recommendation pipeline

This project models the user-based collaborative-filtering recommender of the
movie recommender service (`Recommender.get_recommendations`, app.py:35-66).
Given every stored rating, a target user and a requested count, the pipeline:

1. pivots the (user, movie, rating) triples into a dense users × movies table,
   averaging duplicate ratings and filling unrated cells with 0
   (`RatingMatrix`, rating_matrix.dfy);
2. min-max scales every column into [0, 1], with a constant column scaled to 0
   (`MinMaxScaling`, min_max_scaling.dfy);
3. computes the cosine similarity of every pair of scaled user rows
   (`CosineSimilarity`, cosine_similarity.dfy);
4. ranks the users by similarity to the target and keeps five neighbours
   (`Ranking`, ranking.dfy, and `Neighbourhood`, neighbourhood.dfy);
5. scores every movie by the mean of the neighbours' raw ratings and ranks the
   movies by score (`Scoring`, scoring.dfy);
6. drops the movies the target holds a nonzero value for and keeps `head(n)`
   (`Recommender`, recommender.dfy).

Everything is a pure function of its inputs. The database read becomes the
parameter `obs: seq<Rating>`. Arithmetic is exact `real` arithmetic.

Users are rows of the table and movies are its columns. Both are in
ascending id order, as a pivot table sorts its index and its columns. So
breaking ties by position is the same as breaking ties by ascending id.
`Ranking.Precedes` orders entries by key, highest first, and then by
ascending position. That is the one deterministic order used for neighbours
and for movies.

The source slices `[1:6]` from the ranked similarity column. This assumes
that the target ranks first in its own column. The model instead leaves the
target out by position (`Neighbourhood.Neighbours`). It proves that the two
agree whenever the target does rank first, and it exhibits a case where the
target does not rank first (see Findings). At app.py:56 the model therefore
follows the evidently intended behaviour, not the code; the code's slice is
kept beside it as `Neighbourhood.SliceNeighbours`.

The code does not validate ratings (no range or type check), so neither does
the model. A stored rating of 0 gives a cell of 0, which the filter treats
like a movie the target never rated. The model keeps that behaviour.

## Model

| member | source | states |
|---|---|---|
| RatingMatrix.SortedDistinct | app.py:44 | the pivot's row or column labels: strictly increasing, and exactly the values that occur in the input |
| RatingMatrix.BuildMatrix | app.py:40-45 | the table's rows are exactly the distinct user ids and its columns exactly the distinct movie ids of all ratings, both ascending; every row has one cell per movie; each cell is the pair's averaged rating, or 0 when the pair was never rated |
| RatingMatrix.Cell | app.py:44-45 | definition of one pivot cell; with at least one rating of the pair, the cell times the number of ratings is their sum, so it is their mean (`UnratedCellIsZero` gives the 0 fill) |
| RatingMatrix.CountZeroIff | app.py:44-45 | a pair has no rating count exactly when no stored rating is for that user and movie |
| RatingMatrix.UnratedCellIsZero | app.py:45 | a (user, movie) pair nobody rated is filled with 0 |
| RatingMatrix.SingleRatingCell | app.py:44 | a pair rated exactly once holds exactly that rating |
| RatingMatrix.CellWithinRatings | app.py:44 | duplicate ratings of a pair are averaged: the cell lies between the smallest and the largest of them |
| MinMaxScaling.Min | app.py:48-49 | the column minimum the scaler fits is a value of the column and no larger than any |
| MinMaxScaling.Max | app.py:48-49 | the column maximum the scaler fits is a value of the column and no smaller than any |
| MinMaxScaling.ColumnMin | app.py:48-49 | the minimum the scaler fits on a column: no larger than any of its cells, and one of them |
| MinMaxScaling.ColumnMax | app.py:48-49 | the maximum the scaler fits on a column: no smaller than any of its cells, and one of them |
| MinMaxScaling.Range | app.py:48-49 | the scaler's divisor with its zero-range guard: never 0, positive on an ordered range, and the range itself when the range is not 0 |
| MinMaxScaling.Scale | app.py:48-49 | one scaled value: a value inside [min, max] lands in [0, 1], the minimum goes to 0, the maximum of a non-constant column to 1, and a constant column is only shifted (divided by 1) |
| MinMaxScaling.Normalize | app.py:48-49 | scaling keeps the table's users, movies and shape |
| MinMaxScaling.NormalizedCell | app.py:48-49 | every scaled cell is (x − min) / (max − min) for its own column, and 0 when the column's min equals its max |
| MinMaxScaling.NormalizedInUnitInterval | app.py:48-49 | every scaled cell lies in [0, 1] |
| MinMaxScaling.ConstantColumnIsZero | app.py:48-49 | a column in which every user has the same value (an all-zero column included) scales to 0 for every user, with no division by zero |
| MinMaxScaling.ExtremesMapToEnds | app.py:48-49 | a column's minimum scales to 0 and, in a non-constant column, its maximum to 1 |
| MinMaxScaling.NormalizeMonotone | app.py:48-49 | scaling keeps the order of users within each column |
| MinMaxScaling.NormalizedRowNonNegative | app.py:49-52 | a scaled row has no negative entry, the fact the cosine's sign rests on |
| CosineSimilarity.Dot | app.py:52 | definition of the dot product; it is non-negative on non-negative rows |
| CosineSimilarity.DotSelfZeroIff | app.py:52 | a · a is never negative, and it is zero exactly for the all-zero row |
| CosineSimilarity.NormSq | app.py:52 | the squared norm ‖a‖²: never negative, and zero exactly for the all-zero row |
| CosineSimilarity.SquaredRatio | app.py:52 | with nonzero norms the value is d² / (p q), and it is non-negative for non-negative p and q |
| CosineSimilarity.CosineSq | app.py:52 | the model's similarity: never negative, and 0 with everyone, in both directions, for a user whose scaled row is all zeros (a zero row is left unnormalised) |
| CosineSimilarity.DotSymmetric | app.py:52 | the dot product is symmetric |
| CosineSimilarity.CosineSqSymmetric | app.py:52 | the similarity of a and b equals that of b and a |
| CosineSimilarity.SelfSimilarityIsOne | app.py:52 | a row with a nonzero entry has similarity 1 with itself |
| CosineSimilarity.CosineOfSquares | app.py:52 | for any cosine value dot(a, b) / (‖a‖ ‖b‖) built from true norms, the model's similarity is its square, and on non-negative rows the cosine is itself non-negative |
| CosineSimilarity.SquaredCosine | app.py:52 | with norms whose squares are A and B, the square of d / (na nb) is the model's d² / (A B) |
| CosineSimilarity.SquareOrder | app.py:52-56 | for two non-negative numbers, squaring keeps both their order and their equality |
| CosineSimilarity.TableOfCosineRoots | app.py:52-53 | on non-negative rows, every true cosine is a non-negative square root of the matching entry of the model's table |
| CosineSimilarity.SimilarityMatrix | app.py:52-53 | the similarity table is users × users and every entry is non-negative |
| CosineSimilarity.SimilarityMatrixSymmetric | app.py:52-53 | the similarity table is symmetric |
| Ranking.Rank | app.py:56 | a descending sort: the result is ranked (higher key first, then lower position) and is a permutation of the input |
| Ranking.RankedUnique | app.py:56 | two ranked arrangements of the same entries are the same sequence, so the ranking is fully determined |
| Ranking.RankIsOrderIndependent | app.py:56 | the ranking depends only on the entries, not on the order in which they arrive |
| Ranking.RankHeadPrecedesAll | app.py:56 | the first ranked entry precedes every entry of the input |
| Ranking.Take | app.py:56 | taking a prefix keeps at most k entries, in order, and keeps the ranking and the distinct ids |
| Ranking.RankedTail | app.py:56 | dropping the first entry of a ranking leaves the ranking of the remaining entries |
| Ranking.PermutationUniqueIds | app.py:56 | a permutation of entries with distinct ids still has distinct ids |
| Neighbourhood.SimilarityColumn | app.py:53-56 | the target's similarity column: one entry per user, keyed by that user's similarity to the target |
| Neighbourhood.RankedOthers | app.py:56 | ranking the other users yields all users except the target, each once, keyed by its similarity |
| Neighbourhood.Neighbours | app.py:56 | the neighbour list has min(5, users − 1) members, all in range, never the target, all distinct, in non-increasing similarity order |
| Neighbourhood.NeighboursAreMostSimilar | app.py:56 | top-k: a user left out of the neighbours (not the target) is no more similar than any neighbour, and on equal similarity has a larger id |
| Neighbourhood.RootOrder | app.py:56 | two non-negative roots compare (greater, equal, at least) exactly as their squares do |
| Neighbourhood.NeighboursInCosineOrder | app.py:52-56 | the neighbours, chosen on squared similarities, are in non-increasing order of any table of non-negative roots of those squares, the true cosines included |
| Neighbourhood.NeighboursAreMostSimilarByCosine | app.py:52-56 | top-k by true cosine: a user other than the target left out of the neighbours has a cosine no larger than any neighbour's, and on an equal cosine a larger id |
| Neighbourhood.SliceNeighbours | app.py:56 | the `[1:6]` slice as written: min(5, users − 1) row positions, all in range |
| Neighbourhood.TargetFirstTail | app.py:56 | when the target ranks first in its own column, the rest of the ranking is the ranking of the other users |
| Neighbourhood.SliceAgreesWhenTargetFirst | app.py:56 | when the target ranks first in its own column, the slice yields exactly the neighbours |
| Neighbourhood.FlatColumnRanksByPosition | app.py:56 | a column in which every user is equally (zero) similar to the target ranks in position order |
| Neighbourhood.SliceIncludesZeroRowTarget | app.py:56 | a target with an all-zero scaled row and a position from 1 to 5 is inside the slice, but never among the neighbours |
| Scoring.ColumnSum | app.py:59-60 | definition: the total of one column over the neighbour rows (characterised by `ColumnSumBounds` and `ColumnSumAgrees`) |
| Scoring.ColumnSumBounds | app.py:59-60 | if every neighbour's value lies in [lo, hi], the total lies between lo and hi times the number of neighbours |
| Scoring.Mean | app.py:60 | definition of `mean(axis=0)` for one movie over the neighbour rows (characterised by `MeanTimesCount`, `ScoreWithinNeighbourRatings`, `SingleNeighbourScore` and `ScoreReadsOnlyNeighbours`) |
| Scoring.MeanTimesCount | app.py:59-60 | a movie's score times the number of neighbours is the sum of their raw ratings of it |
| Scoring.MovieScores | app.py:59-60 | one entry per movie, keyed by its mean over the neighbour rows, with distinct ids |
| Scoring.SingleNeighbourScore | app.py:60 | with a single neighbour, a score is that neighbour's raw rating |
| Scoring.ScoreWithinNeighbourRatings | app.py:60 | a score lies between the smallest and the largest raw rating the neighbours gave the movie |
| Scoring.ScoreReadsOnlyNeighbours | app.py:59-60 | only the neighbours' rows count: changing any other user's ratings leaves every score unchanged |
| Scoring.ColumnSumAgrees | app.py:59-60 | a column total over the neighbours reads only the neighbours' cells |
| Scoring.Unrated | app.py:63-64 | the mask keeps exactly the entries whose movie the target holds 0 for, in their ranked order, with distinct ids |
| Scoring.Head | app.py:66 | `head(n)` is a prefix of its input of `HeadCount` entries, and it keeps the ranking and the distinct ids |
| Scoring.HeadTakesFirst | app.py:66 | with a count n ≥ 0, `head` keeps a prefix of at most n entries: exactly n, or the whole list when it is shorter |
| Scoring.HeadDropsLast | app.py:66 | with a negative count, what `head` keeps and what it drops make up the whole list, and exactly min(abs(n), length) entries are dropped |
| Recommender.Similarities | app.py:48-53 | definition of the pipeline's similarity table (scale, then compare rows): one row and one column per user |
| Recommender.TrueCosinesAreRoots | app.py:48-53 | for any norms of the scaled rows, the true cosines are non-negative square roots of the model's similarities, so the neighbour lemmas stated over roots hold of the cosine itself |
| Recommender.TargetRow | app.py:56-63 | the target's row is the table row labelled with the target's id |
| Recommender.MovieScore | app.py:59-60 | definition: a movie's mean raw rating among the target's neighbours (characterised by `RecommendedScores`, `RecommendationsInScoreOrder` and `EligibleMovieOutranked`) |
| Recommender.TargetNeighbours | app.py:56-59 | the neighbours are rows of the rating table |
| Recommender.IndexOfIncreasing | app.py:53 | in a strictly increasing label list every label has exactly one position |
| Recommender.RankedScores | app.py:60 | the ranked scores hold exactly one entry per movie, keyed by its mean neighbour rating |
| Recommender.Candidates | app.py:60-64 | the filtered list is ranked by score, has distinct movies, and holds exactly the movies the target holds 0 for, each with its score |
| Recommender.Chosen | app.py:66 | the chosen entries are the first `HeadCount` entries of the filtered, ranked list |
| Recommender.OmittedCandidate | app.py:60-66 | a left-out candidate column comes after every chosen one and was left out only because the prefix was full |
| Recommender.MovieIdsAt | app.py:66 | each chosen column becomes its movie id, in order |
| Recommender.Recommend | app.py:35-66 | no ratings at all is an error, a target with no ratings is an error naming the target, and otherwise there is a result |
| Recommender.RecommendChosen | app.py:66 | a successful result lists, in order, the movie ids of the chosen columns |
| Recommender.RecommendationsAreUnratedMovies | app.py:63-66 | every recommended id is a movie that occurs in the ratings, the target's table value for it is 0, and no movie is recommended twice |
| Recommender.RecommendationCount | app.py:66 | the result has no more entries than there are distinct movies, nor, for n ≥ 0, than requested |
| Recommender.RecommendedScores | app.py:59-66 | each recommended movie's score is the key it was ranked by |
| Recommender.RecommendationsInScoreOrder | app.py:60-66 | recommended movies come in non-increasing order of mean neighbour rating |
| Recommender.OmittedMovieOutranked | app.py:60-66 | in movie ids: a left-out candidate movie is outranked by every recommended one, with ties going to the lower movie id |
| Recommender.EligibleMovieOutranked | app.py:56-66 | a movie the target holds 0 for that was not recommended was left out only because the list is full (n entries for n ≥ 0), and every recommended movie scores higher, or the same with a lower id |

## Left out

- The HTTP layer (Flask app, `MovieRecommendation`, `RateMovie`, route registration) and configuration loading: transport, not the recommendation computation.
- Database access (`Rating.query.all()`, the session writes, the seeding and the title lookup): persistence I/O. The ratings read at app.py:37 are the parameter `obs`, and the result is the list of movie ids, without titles.
- The internals of pandas and scikit-learn: only the mathematical effect of `pivot_table`, `fillna`, `MinMaxScaler`, `cosine_similarity`, `sort_values`, `mean`, the boolean mask and `head` is modelled.
- Floating-point rounding: all arithmetic is exact over `real`, so two scores that differ only by rounding compare as equal here.
- CosineSimilarity.SimilarityMatrix: holds the square of the cosine, because `real` has no square root. The cosine values themselves are not computed. `TrueCosinesAreRoots` shows the true cosines of the scaled rows are non-negative roots of the table's entries, and `NeighboursInCosineOrder` and `NeighboursAreMostSimilarByCosine` show that the neighbours are ordered, and top-k, by the true cosine. The movie result is not restated in terms of cosines.
- Neighbourhood.Neighbours: ties in similarity go to the lower user id. The source's order among tied users depends on the sort algorithm that `sort_values` picks. It is not part of the source's contract.
- Recommender.Candidates: ties in score go to the lower movie id, for the same reason.
- Scoring.Mean: with no neighbours at all (a single user in the table) a score is 0 here, where the source's mean is NaN. Every movie then ties, and the source places NaNs last in their original (ascending id) order. So the result is the same list.
- Ratings are unbounded integers. The source's database column is an integer of the database's own width.
- Input validation of ratings (type or range) is not done in the source and is not modelled.

## Findings

| source | as written | input that shows it | evidently intended | confidence | as-written member | corrected member |
|---|---|---|---|---|---|---|
| app.py:56 | `sort_values(ascending=False)[1:6]` drops the first ranked user, assuming it is the target | ratings (1,10,5), (1,11,2), (1,12,4), (2,10,5), target 2: user 2's scaled row is all zeros, so every similarity in its column is 0 and the column stays in id order; the slice keeps user 2 itself, so the scores are user 2's own ratings and the result is [11, 12] instead of [12, 11] | leave the target out of its own neighbours whatever its similarity | medium, not executed | Neighbourhood.SliceNeighbours, Neighbourhood.SliceIncludesZeroRowTarget | Neighbourhood.Neighbours, Neighbourhood.SliceAgreesWhenTargetFirst |
