/**
 * Similarity ranking: the accumulators of the cosine similarity between two histograms, the
 * ranking of one feature channel, and the equal-weight fusion of the SIFT bag-of-words channel
 * with the colour-histogram channel.
 *
 * The final step of the cosine, dot / (sqrt(normA) * sqrt(normB)), is floating-point work
 * and stays abstract: the `finish` parameter receives (dot, normA, normB).
 */
module Retrieval {
  import opened Lex
  import opened Ranking

  /** A one-channel float matrix stored row by row: `data[r * cols + c]`. */
  datatype Mat = Mat(rows: nat, cols: nat, data: seq<real>)

  predicate Valid(m: Mat)
  {
    |m.data| == m.rows * m.cols
  }

  /** The `CV_Assert`s: both histograms have the same size (their element type is always float here). */
  predicate SameSize(a: Mat, b: Mat)
  {
    Valid(a) && Valid(b) && a.rows == b.rows && a.cols == b.cols
  }

  /**
   * The product of two reals. Naming it keeps the solver's reasoning about sums of squares
   * linear in the product terms.
   */
  function Product(x: real, y: real): real
  {
    x * y
  }

  /** The sum of the products of corresponding elements. */
  function Dot(a: seq<real>, b: seq<real>): real
    requires |a| == |b|
  {
    if a == [] then 0.0 else Dot(a[..|a| - 1], b[..|b| - 1]) + Product(a[|a| - 1], b[|b| - 1])
  }

  lemma {:induction false} DotSymmetric(a: seq<real>, b: seq<real>)
    requires |a| == |b|
    ensures Dot(a, b) == Dot(b, a)
    decreases |a|
  {
    if a != [] {
      DotSymmetric(a[..|a| - 1], b[..|b| - 1]);
    }
  }

  /** The squared norm is non-negative, and 0 exactly for the all-zero vector. */
  lemma {:induction false} SquaredNorm(a: seq<real>)
    ensures Dot(a, a) >= 0.0
    ensures Dot(a, a) == 0.0 <==> forall i :: 0 <= i < |a| ==> a[i] == 0.0
    decreases |a|
  {
    if a != [] {
      var n := |a|;
      var init := a[..n - 1];
      SquaredNorm(init);
      SquarePositive(a[n - 1]);
      forall i | 0 <= i < n - 1 ensures init[i] == a[i] { }
    }
  }

  lemma ProductPositive(x: real, y: real)
    requires x > 0.0 && y > 0.0
    ensures Product(x, y) > 0.0
  {
  }

  /** A square is non-negative, and positive exactly when the number is not 0. */
  lemma SquarePositive(x: real)
    ensures Product(x, x) >= 0.0
    ensures x != 0.0 ==> Product(x, x) > 0.0
    ensures x == 0.0 ==> Product(x, x) == 0.0
  {
    if x < 0.0 {
      ProductPositive(-x, -x);
      assert Product(-x, -x) == Product(x, x);
    } else if x > 0.0 {
      ProductPositive(x, x);
    }
  }

  /** The three running sums of the cosine loop. */
  datatype Acc = Acc(dot: real, normA: real, normB: real)

  /** The sums over the first `n` elements of `a` and `b`. */
  function AccumulatorsOver(a: seq<real>, b: seq<real>, n: nat): Acc
    requires n <= |a| && n <= |b|
  {
    Acc(Dot(a[..n], b[..n]), Dot(a[..n], a[..n]), Dot(b[..n], b[..n]))
  }

  /** The cosine loop over the first `n` elements of the flattened histograms. */
  method Accumulate(a: seq<real>, b: seq<real>, n: nat) returns (acc: Acc)
    requires n <= |a| && n <= |b|
    ensures acc == AccumulatorsOver(a, b, n)
  {
    var dotProduct, normA, normB := 0.0, 0.0, 0.0;
    var i := 0;
    while i < n
      invariant 0 <= i <= n
      invariant Acc(dotProduct, normA, normB) == AccumulatorsOver(a, b, i)
    {
      assert a[..i + 1][..i] == a[..i] && b[..i + 1][..i] == b[..i];
      var binI, binJ := a[i], b[i];
      dotProduct := dotProduct + binI * binJ;
      normA := normA + binI * binI;
      normB := normB + binJ * binJ;
      i := i + 1;
    }
    acc := Acc(dotProduct, normA, normB);
  }

  /**
   * The accumulators as the loop is written: it runs over `hist1.rows`, and `at<float>(i)`
   * reads flat element i. The histograms are 1 x N, so only element 0 is read.
   */
  function AsWrittenAccumulators(h1: Mat, h2: Mat): Acc
    requires SameSize(h1, h2) && h1.rows <= |h1.data|
  {
    AccumulatorsOver(h1.data, h2.data, h1.rows)
  }

  method CosineAccumulatorsAsWritten(h1: Mat, h2: Mat) returns (acc: Acc)
    requires SameSize(h1, h2) && h1.rows <= |h1.data|
    ensures acc == AsWrittenAccumulators(h1, h2)
  {
    acc := Accumulate(h1.data, h2.data, h1.rows);
  }

  /** On a 1 x N histogram the loop as written sees the first bin only. */
  lemma AsWrittenReadsFirstBinOnly(h1: Mat, h2: Mat)
    requires SameSize(h1, h2) && h1.rows == 1 && h1.cols >= 1
    ensures AsWrittenAccumulators(h1, h2)
      == Acc(h1.data[0] * h2.data[0], h1.data[0] * h1.data[0], h2.data[0] * h2.data[0])
  {
    var a, b := h1.data[..1], h2.data[..1];
    assert a == [h1.data[0]] && b == [h2.data[0]];
    assert a[..0] == [] && b[..0] == [];
    assert Dot(a, b) == h1.data[0] * h2.data[0];
    assert Dot(a, a) == h1.data[0] * h1.data[0];
    assert Dot(b, b) == h2.data[0] * h2.data[0];
  }

  /**
   * As written, [1, 0] against [1, 5] gives the same sums as [1, 0] against itself: the
   * second bin, where the histograms differ, is never read.
   */
  lemma AsWrittenIgnoresLaterBins()
    ensures AsWrittenAccumulators(Mat(1, 2, [1.0, 0.0]), Mat(1, 2, [1.0, 5.0]))
      == AsWrittenAccumulators(Mat(1, 2, [1.0, 0.0]), Mat(1, 2, [1.0, 0.0]))
    ensures Accumulators(Mat(1, 2, [1.0, 0.0]), Mat(1, 2, [1.0, 5.0])).normB == 26.0
  {
    AsWrittenReadsFirstBinOnly(Mat(1, 2, [1.0, 0.0]), Mat(1, 2, [1.0, 5.0]));
    AsWrittenReadsFirstBinOnly(Mat(1, 2, [1.0, 0.0]), Mat(1, 2, [1.0, 0.0]));
    var b := [1.0, 5.0];
    assert b[..1] == [1.0] && b[..1][..0] == [];
  }

  /** As written, the non-zero histogram [0, 1] gets normA = 0. */
  lemma AsWrittenZeroNorm()
    ensures AsWrittenAccumulators(Mat(1, 2, [0.0, 1.0]), Mat(1, 2, [0.0, 1.0])).normA == 0.0
    ensures Accumulators(Mat(1, 2, [0.0, 1.0]), Mat(1, 2, [0.0, 1.0])).normA == 1.0
  {
    AsWrittenReadsFirstBinOnly(Mat(1, 2, [0.0, 1.0]), Mat(1, 2, [0.0, 1.0]));
    var a := [0.0, 1.0];
    assert a[..1] == [0.0] && a[..1][..0] == [];
  }

  /** The accumulators over every element of the histograms. */
  function Accumulators(h1: Mat, h2: Mat): Acc
    requires SameSize(h1, h2)
  {
    AccumulatorsOver(h1.data, h2.data, |h1.data|)
  }

  /**
   * Over every element, the sums are the full dot product and squared norms: each norm is
   * non-negative and 0 exactly for an all-zero histogram, and exchanging the histograms
   * exchanges the norms and keeps the dot product.
   */
  lemma AccumulatorsFull(h1: Mat, h2: Mat)
    requires SameSize(h1, h2)
    ensures var acc := Accumulators(h1, h2);
      && acc.normA >= 0.0 && acc.normB >= 0.0
      && (acc.normA == 0.0 <==> forall i :: 0 <= i < |h1.data| ==> h1.data[i] == 0.0)
      && (acc.normB == 0.0 <==> forall i :: 0 <= i < |h2.data| ==> h2.data[i] == 0.0)
      && Accumulators(h2, h1) == Acc(acc.dot, acc.normB, acc.normA)
  {
    assert h1.data[..|h1.data|] == h1.data && h2.data[..|h2.data|] == h2.data;
    SquaredNorm(h1.data);
    SquaredNorm(h2.data);
    DotSymmetric(h1.data, h2.data);
  }

  /** The loop over every element of the histograms, rows * cols of them. */
  method CosineAccumulators(h1: Mat, h2: Mat) returns (acc: Acc)
    requires SameSize(h1, h2)
    ensures acc == Accumulators(h1, h2)
  {
    acc := Accumulate(h1.data, h2.data, h1.rows * h1.cols);
  }

  /** The similarity of two histograms: `finish` applied to the full accumulators. */
  function Cosine(h1: Mat, h2: Mat, finish: (real, real, real) -> real): real
    requires SameSize(h1, h2)
  {
    var acc := Accumulators(h1, h2);
    finish(acc.dot, acc.normA, acc.normB)
  }

  /** `computeCosineSimilarity`, with the accumulator loop over every element. */
  method ComputeCosineSimilarity(h1: Mat, h2: Mat, finish: (real, real, real) -> real)
    returns (similarity: real)
    requires SameSize(h1, h2)
    ensures similarity == Cosine(h1, h2, finish)
  {
    var acc := CosineAccumulators(h1, h2);
    similarity := finish(acc.dot, acc.normA, acc.normB);
  }

  /** With a final step symmetric in the two norms, as dot / (sqrt(nA) * sqrt(nB)) is, the similarity is symmetric. */
  lemma CosineSymmetric(h1: Mat, h2: Mat, finish: (real, real, real) -> real)
    requires SameSize(h1, h2)
    requires forall d, x, y :: finish(d, x, y) == finish(d, y, x)
    ensures Cosine(h1, h2, finish) == Cosine(h2, h1, finish)
  {
    AccumulatorsFull(h1, h2);
  }

  // ---------------------------------------------------------------------------------
  // One channel
  // ---------------------------------------------------------------------------------

  /** Every database histogram has the query's size. */
  predicate Comparable(query: Mat, database: seq<(string, Mat)>)
  {
    forall i :: 0 <= i < |database| ==> SameSize(query, database[i].1)
  }

  /** One (identifier, similarity) pair per database entry, in database order. */
  function Scores(query: Mat, database: seq<(string, Mat)>, finish: (real, real, real) -> real): (s: seq<Scored>)
    requires Comparable(query, database)
    ensures |s| == |database|
    ensures forall i :: 0 <= i < |database| ==> s[i] == (database[i].0, Cosine(query, database[i].1, finish))
  {
    seq(|database|, i requires 0 <= i < |database| => (database[i].0, Cosine(query, database[i].1, finish)))
  }

  /** The candidates sorted in place by `std::sort`: an array filled from `s`, then sorted. */
  method SortScores(s: seq<Scored>) returns (ranked: seq<Scored>)
    ensures SortedByScore(ranked) && multiset(ranked) == multiset(s)
  {
    var a := new Scored[|s|](i requires 0 <= i < |s| => s[i]);
    assert a[..] == s;
    SortByScore(a);
    ranked := a[..];
  }

  /**
   * `findTopSimilarImages` after the database has been loaded: nothing for an empty database;
   * otherwise one score per entry, sorted by descending score, and the identifiers of the
   * first min(numResults, |database|) candidates.
   */
  method FindTopSimilarImages(queryHistogram: Mat, database: seq<(string, Mat)>, numResults: int,
                              finish: (real, real, real) -> real)
    returns (top: seq<string>, ghost ranked: seq<Scored>)
    requires Comparable(queryHistogram, database)
    ensures database == [] ==> top == []
    ensures |top| == TopCount(numResults, |database|)
    ensures SortedByScore(ranked) && multiset(ranked) == multiset(Scores(queryHistogram, database, finish))
    ensures |ranked| == |database| && top == Ids(ranked[..|top|])
  {
    if database == [] {
      return [], [];
    }
    var similarityScores: seq<Scored> := [];
    var i := 0;
    while i < |database|
      invariant 0 <= i <= |database|
      invariant similarityScores == Scores(queryHistogram, database[..i], finish)
    {
      var score := ComputeCosineSimilarity(queryHistogram, database[i].1, finish);
      similarityScores := similarityScores + [(database[i].0, score)];
      i := i + 1;
    }
    assert database[..i] == database;
    var sorted := SortScores(similarityScores);
    ranked := sorted;
    assert |ranked| == |multiset(ranked)| == |database|;
    top := TakeTop(sorted, numResults);
  }

  // ---------------------------------------------------------------------------------
  // Fusion of the SIFT and colour channels
  // ---------------------------------------------------------------------------------

  /** The `std::map` of scores: every entry overwrites the score of an earlier one with its identifier. */
  function ScoreMap(query: Mat, features: seq<(string, Mat)>, finish: (real, real, real) -> real): map<string, real>
    requires Comparable(query, features)
    decreases |features|
  {
    if features == [] then map[]
    else
      var last := features[|features| - 1];
      ScoreMap(query, features[..|features| - 1], finish)[last.0 := Cosine(query, last.1, finish)]
  }

  /**
   * The map holds exactly the identifiers of the entries, and the score of an identifier is
   * that of its last entry.
   */
  lemma {:induction false} ScoreMapLastWriteWins(query: Mat, features: seq<(string, Mat)>,
                                                  finish: (real, real, real) -> real, i: nat)
    requires Comparable(query, features) && i < |features|
    requires forall j :: i < j < |features| ==> features[j].0 != features[i].0
    ensures features[i].0 in ScoreMap(query, features, finish)
    ensures ScoreMap(query, features, finish)[features[i].0] == Cosine(query, features[i].1, finish)
    decreases |features|
  {
    if i < |features| - 1 {
      ScoreMapLastWriteWins(query, features[..|features| - 1], finish, i);
    }
  }

  lemma {:induction false} ScoreMapKeys(query: Mat, features: seq<(string, Mat)>,
                                         finish: (real, real, real) -> real, id: string)
    requires Comparable(query, features)
    ensures id in ScoreMap(query, features, finish) <==> exists j :: 0 <= j < |features| && features[j].0 == id
    decreases |features|
  {
    if features != [] {
      var n := |features|;
      ScoreMapKeys(query, features[..n - 1], finish, id);
      if exists j :: 0 <= j < n && features[j].0 == id {
        var j :| 0 <= j < n && features[j].0 == id;
        if j < n - 1 {
          assert features[..n - 1][j] == features[j];
        }
      }
    }
  }

  /**
   * The fused score of an identifier: half its SIFT score plus half its colour score, where an
   * identifier absent from the colour map counts 0 (what `operator[]` default-inserts).
   */
  function FusedScore(id: string, siftScores: map<string, real>, histogramScores: map<string, real>): real
    requires id in siftScores
  {
    0.5 * siftScores[id] + 0.5 * (if id in histogramScores then histogramScores[id] else 0.0)
  }

  /** The fused candidates for the identifiers `ids`, in that order. */
  function Fused(ids: seq<string>, siftScores: map<string, real>, histogramScores: map<string, real>): (s: seq<Scored>)
    requires forall k :: k in ids ==> k in siftScores
    ensures |s| == |ids|
    ensures forall k :: 0 <= k < |ids| ==> s[k] == (ids[k], FusedScore(ids[k], siftScores, histogramScores))
  {
    if ids == [] then []
    else [(ids[0], FusedScore(ids[0], siftScores, histogramScores))] + Fused(ids[1..], siftScores, histogramScores)
  }

  /** The combined list: one fused candidate per SIFT identifier, in ascending identifier order. */
  function FusedScores(siftScores: map<string, real>, histogramScores: map<string, real>): seq<Scored>
  {
    Fused(AscendingKeys(siftScores.Keys), siftScores, histogramScores)
  }

  /** The fused candidates carry the identifiers they were built from, in order. */
  lemma FusedIds(ids: seq<string>, siftScores: map<string, real>, histogramScores: map<string, real>)
    requires forall k :: k in ids ==> k in siftScores
    ensures Ids(Fused(ids, siftScores, histogramScores)) == ids
  {
  }

  /**
   * The fusion's candidates are exactly the SIFT identifiers, in the map's ascending traversal
   * order: an identifier with a colour score only is never a candidate. A SIFT identifier
   * without a colour score keeps half its SIFT score.
   */
  lemma FusionCandidates(siftScores: map<string, real>, histogramScores: map<string, real>)
    ensures var s := FusedScores(siftScores, histogramScores);
      && |s| == |siftScores|
      && Ids(s) == AscendingKeys(siftScores.Keys)
      && (forall id :: id in Ids(s) <==> id in siftScores)
      && (forall i :: 0 <= i < |s| && s[i].0 !in histogramScores ==> s[i].1 == 0.5 * siftScores[s[i].0])
  {
    var ks := AscendingKeys(siftScores.Keys);
    var s := Fused(ks, siftScores, histogramScores);
    FusedIds(ks, siftScores, histogramScores);
    assert |siftScores| == |siftScores.Keys|;
    forall i | 0 <= i < |s| && s[i].0 !in histogramScores ensures s[i].1 == 0.5 * siftScores[s[i].0] {
      assert s[i] == (ks[i], FusedScore(ks[i], siftScores, histogramScores));
    }
  }

  /** Since the traversal order is strictly ascending, no identifier is a candidate twice. */
  lemma FusionCandidatesDistinct(siftScores: map<string, real>, histogramScores: map<string, real>)
    ensures var s := FusedScores(siftScores, histogramScores);
      forall i, j :: 0 <= i < j < |s| ==> s[i].0 != s[j].0
  {
    FusionCandidates(siftScores, histogramScores);
    AscendingKeysDistinct(siftScores.Keys);
    var s := FusedScores(siftScores, histogramScores);
    forall i, j | 0 <= i < j < |s| ensures s[i].0 != s[j].0 {
      assert s[i].0 == Ids(s)[i] && s[j].0 == Ids(s)[j];
    }
  }

  /** The SIFT channel's score map, built as the loop over the entries builds it. */
  method BuildScoreMap(query: Mat, features: seq<(string, Mat)>, finish: (real, real, real) -> real)
    returns (scores: map<string, real>)
    requires Comparable(query, features)
    ensures scores == ScoreMap(query, features, finish)
  {
    scores := map[];
    var i := 0;
    while i < |features|
      invariant 0 <= i <= |features|
      invariant scores == ScoreMap(query, features[..i], finish)
    {
      assert features[..i + 1][..i] == features[..i];
      var score := ComputeCosineSimilarity(query, features[i].1, finish);
      scores := scores[features[i].0 := score];
      i := i + 1;
    }
    assert features[..i] == features;
  }

  /** Building from one more identifier at the back puts its candidate at the back. */
  lemma FusedSnoc(ids: seq<string>, i: nat, siftScores: map<string, real>, histogramScores: map<string, real>)
    requires i < |ids| && forall k :: k in ids ==> k in siftScores
    ensures Fused(ids[..i + 1], siftScores, histogramScores)
      == Fused(ids[..i], siftScores, histogramScores) + [(ids[i], FusedScore(ids[i], siftScores, histogramScores))]
  {
  }

  /** The loop body over the identifiers `ids`, in order: one fused candidate pushed per identifier. */
  method FuseInOrder(ids: seq<string>, siftScores: map<string, real>, histogramScores: map<string, real>)
    returns (similarityScores: seq<Scored>)
    requires forall k :: k in ids ==> k in siftScores
    ensures similarityScores == Fused(ids, siftScores, histogramScores)
  {
    similarityScores := [];
    var i := 0;
    while i < |ids|
      invariant 0 <= i <= |ids|
      invariant similarityScores == Fused(ids[..i], siftScores, histogramScores)
    {
      var id := ids[i];
      var combinedScore := 0.5 * siftScores[id]
        + 0.5 * (if id in histogramScores then histogramScores[id] else 0.0);
      FusedSnoc(ids, i, siftScores, histogramScores);
      similarityScores := similarityScores + [(id, combinedScore)];
      i := i + 1;
    }
    assert ids[..i] == ids;
  }

  /** The loop over the SIFT map, which a `std::map` visits in ascending key order. */
  method Combine(siftScores: map<string, real>, histogramScores: map<string, real>)
    returns (similarityScores: seq<Scored>)
    ensures similarityScores == FusedScores(siftScores, histogramScores)
  {
    similarityScores := FuseInOrder(AscendingKeys(siftScores.Keys), siftScores, histogramScores);
  }

  /**
   * `retrivalSIFTHistogram` after both channels have been loaded: nothing when either is
   * empty; otherwise the SIFT and colour score maps, one fused candidate per SIFT identifier,
   * sorted by descending score, and the identifiers of the first min(numResults, candidates).
   */
  method RetrievalSiftHistogram(querySift: Mat, queryHistogram: Mat,
                                siftFeatures: seq<(string, Mat)>, histogramFeatures: seq<(string, Mat)>,
                                numResults: int, finish: (real, real, real) -> real)
    returns (top: seq<string>, ghost ranked: seq<Scored>)
    requires Comparable(querySift, siftFeatures) && Comparable(queryHistogram, histogramFeatures)
    ensures siftFeatures == [] || histogramFeatures == [] ==> top == []
    ensures siftFeatures != [] && histogramFeatures != [] ==>
      var candidates := FusedScores(ScoreMap(querySift, siftFeatures, finish),
                                    ScoreMap(queryHistogram, histogramFeatures, finish));
      && SortedByScore(ranked) && multiset(ranked) == multiset(candidates)
      && |ranked| == |candidates| && |top| == TopCount(numResults, |candidates|)
      && top == Ids(ranked[..|top|])
  {
    if siftFeatures == [] || histogramFeatures == [] {
      return [], [];
    }
    var siftScores := BuildScoreMap(querySift, siftFeatures, finish);
    var histogramScores := BuildScoreMap(queryHistogram, histogramFeatures, finish);
    var similarityScores := Combine(siftScores, histogramScores);
    var sorted := SortScores(similarityScores);
    ranked := sorted;
    assert |ranked| == |multiset(ranked)| == |similarityScores|;
    top := TakeTop(sorted, numResults);
  }
}
