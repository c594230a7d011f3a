/**
 * Bag-of-visual-words histograms: every descriptor row of an image is assigned to its
 * nearest codebook centre, the centres' counts form a histogram, and the histogram is divided
 * by its sum.
 */
module Codebook {
  import opened Numeric

  /** One descriptor, or one codebook centre. */
  type Vector = seq<real>

  /** A descriptor matrix, or the codebook: one vector per row. */
  type Matrix = seq<Vector>

  /**
   * The squared Euclidean distance. `cv::norm(.., NORM_L2)` is its square root, which is
   * monotone, so comparing squared distances picks the same centre.
   */
  function SqDist(a: Vector, b: Vector): (d: real)
    requires |a| == |b|
    ensures d >= 0.0
  {
    if a == [] then 0.0
    else
      var diff := a[|a| - 1] - b[|b| - 1];
      SqDist(a[..|a| - 1], b[..|b| - 1]) + diff * diff
  }

  /** Every row of `m` has `width` columns. */
  predicate Width(m: Matrix, width: nat)
  {
    forall i :: 0 <= i < |m| ==> |m[i]| == width
  }

  /**
   * Centre `j` is at minimum distance from `row`, and every centre with a lower index is
   * strictly farther: the lowest index wins among equidistant centres.
   */
  predicate IsNearest(row: Vector, centers: Matrix, j: nat)
    requires Width(centers, |row|)
  {
    && j < |centers|
    && (forall k :: 0 <= k < |centers| ==> SqDist(row, centers[j]) <= SqDist(row, centers[k]))
    && (forall k :: 0 <= k < j ==> SqDist(row, centers[j]) < SqDist(row, centers[k]))
  }

  /** The centre a descriptor row is assigned to: the first centre at minimum distance. */
  function Nearest(row: Vector, centers: Matrix): (j: nat)
    requires |centers| >= 1 && Width(centers, |row|)
    ensures j < |centers|
    decreases |centers|
  {
    var n := |centers|;
    if n == 1 then 0
    else
      var j := Nearest(row, centers[..n - 1]);
      if SqDist(row, centers[n - 1]) < SqDist(row, centers[j]) then n - 1 else j
  }

  lemma {:induction false} NearestIsNearest(row: Vector, centers: Matrix)
    requires |centers| >= 1 && Width(centers, |row|)
    ensures IsNearest(row, centers, Nearest(row, centers))
    decreases |centers|
  {
    var n := |centers|;
    if n > 1 {
      NearestIsNearest(row, centers[..n - 1]);
    }
  }

  /** The nearest centre is determined: exactly one index meets `IsNearest`. */
  lemma NearestUnique(row: Vector, centers: Matrix, j: nat)
    requires |centers| >= 1 && Width(centers, |row|)
    ensures IsNearest(row, centers, j) <==> j == Nearest(row, centers)
  {
    NearestIsNearest(row, centers);
    var k := Nearest(row, centers);
    if IsNearest(row, centers, j) {
      assert !(j < k) && !(k < j);
    }
  }

  /** A centre that repeats an earlier one is never chosen. */
  lemma RepeatedCentreUnused(row: Vector, centers: Matrix, a: nat, b: nat)
    requires |centers| >= 1 && Width(centers, |row|)
    requires a < b < |centers| && centers[a] == centers[b]
    ensures Nearest(row, centers) != b
  {
    NearestIsNearest(row, centers);
  }

  /**
   * The inner loop over the centres: the running minimum starts above every distance (the
   * `DBL_MAX` sentinel, with index -1) and is replaced only by a strictly smaller distance.
   */
  method NearestCentre(row: Vector, centers: Matrix) returns (minIdx: int)
    requires |centers| >= 1 && Width(centers, |row|)
    ensures minIdx == Nearest(row, centers)
  {
    var minDist := 0.0;
    minIdx := -1;
    var j := 0;
    while j < |centers|
      invariant 0 <= j <= |centers|
      invariant j == 0 ==> minIdx == -1
      invariant j > 0 ==> minIdx == Nearest(row, centers[..j]) && minDist == SqDist(row, centers[minIdx])
    {
      assert centers[..j + 1][..j] == centers[..j];
      var dist := SqDist(row, centers[j]);
      if minIdx == -1 || dist < minDist {
        minDist := dist;
        minIdx := j;
      }
      j := j + 1;
    }
    assert centers[..j] == centers;
  }

  /** A non-empty codebook whose centres, like the rows of `feature`, share one width. */
  predicate Shaped(feature: Matrix, centers: Matrix)
  {
    |centers| >= 1 && Width(centers, |centers[0]|) && Width(feature, |centers[0]|)
  }

  /** The bin counts after the rows `feature`, in order: each row adds 1 to its nearest centre's bin. */
  function Counts(feature: Matrix, centers: Matrix): (bins: seq<real>)
    requires Shaped(feature, centers)
    ensures |bins| == |centers|
    decreases |feature|
  {
    if feature == [] then seq(|centers|, _ => 0.0)
    else
      var bins := Counts(feature[..|feature| - 1], centers);
      var j := Nearest(feature[|feature| - 1], centers);
      bins[j := bins[j] + 1.0]
  }

  /**
   * Every row lands in exactly one bin: the counts are non-negative and sum to the number of
   * rows.
   */
  lemma {:induction false} CountsTotal(feature: Matrix, centers: Matrix)
    requires Shaped(feature, centers)
    ensures NonNegative(Counts(feature, centers))
    ensures Sum(Counts(feature, centers)) == |feature| as real
    decreases |feature|
  {
    var n := |feature|;
    if n == 0 {
      ZeroSum(|centers|);
    } else {
      var before := Counts(feature[..n - 1], centers);
      CountsTotal(feature[..n - 1], centers);
      var j := Nearest(feature[n - 1], centers);
      SumUpdate(before, j, before[j] + 1.0);
    }
  }

  lemma {:induction false} ZeroSum(n: nat)
    ensures Sum(seq(n, _ => 0.0)) == 0.0
  {
    if n > 0 {
      assert seq(n, _ => 0.0)[..n - 1] == seq(n - 1, _ => 0.0);
      ZeroSum(n - 1);
    }
  }

  /** Some row of `feature` is assigned to centre `b`. */
  ghost predicate Assigned(feature: Matrix, centers: Matrix, b: nat)
    requires Shaped(feature, centers)
  {
    exists i :: 0 <= i < |feature| && Nearest(feature[i], centers) == b
  }

  lemma AssignedSnoc(feature: Matrix, centers: Matrix, b: nat)
    requires Shaped(feature, centers) && |feature| >= 1
    ensures Assigned(feature, centers, b)
      <==> Assigned(feature[..|feature| - 1], centers, b) || Nearest(feature[|feature| - 1], centers) == b
  {
    var n := |feature|;
    var init := feature[..n - 1];
    if Assigned(feature, centers, b) {
      var i :| 0 <= i < n && Nearest(feature[i], centers) == b;
      if i < n - 1 {
        assert init[i] == feature[i];
      }
    }
    if Assigned(init, centers, b) {
      var i :| 0 <= i < n - 1 && Nearest(init[i], centers) == b;
      assert feature[i] == init[i];
    }
  }

  /** A bin is nonzero exactly when some row's nearest centre is that bin's centre. */
  lemma {:induction false} CountsPositive(feature: Matrix, centers: Matrix, b: nat)
    requires Shaped(feature, centers) && b < |centers|
    ensures Counts(feature, centers)[b] > 0.0 <==> Assigned(feature, centers, b)
    decreases |feature|
  {
    var n := |feature|;
    if n > 0 {
      var init := feature[..n - 1];
      CountsPositive(init, centers, b);
      CountsTotal(init, centers);
      AssignedSnoc(feature, centers, b);
    }
  }

  /**
   * The normalised histogram of one descriptor matrix: each bin's count divided by the
   * number of rows, which is the counts' sum (`CountsTotal`).
   */
  function Histogram(feature: Matrix, centers: Matrix): (h: seq<real>)
    requires Shaped(feature, centers) && |feature| >= 1
    ensures |h| == |centers|
  {
    Scaled(Counts(feature, centers), |feature| as real)
  }

  lemma FractionBounds(x: real, t: real)
    requires 0.0 <= x <= t && t > 0.0
    ensures 0.0 <= x / t <= 1.0
  {
  }

  /** Every bin of the histogram of a non-empty descriptor matrix lies in [0, 1]. */
  lemma HistogramBinBounds(feature: Matrix, centers: Matrix, b: nat)
    requires Shaped(feature, centers) && |feature| >= 1 && b < |centers|
    ensures 0.0 <= Histogram(feature, centers)[b] <= 1.0
  {
    var bins := Counts(feature, centers);
    CountsTotal(feature, centers);
    ElementAtMostSum(bins, b);
    FractionBounds(bins[b], Sum(bins));
  }

  /** The bins of the histogram of a non-empty descriptor matrix sum to 1. */
  lemma HistogramSumsToOne(feature: Matrix, centers: Matrix)
    requires Shaped(feature, centers) && |feature| >= 1
    ensures Sum(Histogram(feature, centers)) == 1.0
  {
    var bins := Counts(feature, centers);
    CountsTotal(feature, centers);
    var n := |feature| as real;
    SumScaled(bins, n);
    assert n / n == 1.0;
  }

  /**
   * `CalculateQueryHistograms`: a zeroed histogram with one bin per centre, one increment per
   * descriptor row at its nearest centre, then every bin divided by the histogram's sum.
   */
  method CalculateQueryHistograms(feature: Matrix, centers: Matrix) returns (histogram: seq<real>)
    requires Shaped(feature, centers) && |feature| >= 1
    ensures histogram == Histogram(feature, centers)
  {
    var bins := new real[|centers|](_ => 0.0);
    var i := 0;
    while i < |feature|
      invariant 0 <= i <= |feature|
      invariant bins[..] == Counts(feature[..i], centers)
    {
      assert feature[..i + 1][..i] == feature[..i];
      var minIdx := NearestCentre(feature[i], centers);
      bins[minIdx] := bins[minIdx] + 1.0;
      i := i + 1;
    }
    assert feature[..i] == feature;
    var total := ArraySum(bins);
    CountsTotal(feature, centers);
    DivideInPlace(bins, total);
    histogram := bins[..];
  }

  /**
   * `CalculateHistograms`: one (identifier, histogram) pair per record, in the records'
   * order, each histogram computed as for a query.
   */
  method CalculateHistograms(features: seq<(string, Matrix)>, centers: Matrix)
    returns (histograms: seq<(string, seq<real>)>)
    requires |centers| >= 1
    requires forall i :: 0 <= i < |features| ==> |features[i].1| >= 1 && Shaped(features[i].1, centers)
    ensures |histograms| == |features|
    ensures forall i :: 0 <= i < |features| ==>
      histograms[i].0 == features[i].0 && histograms[i].1 == Histogram(features[i].1, centers)
  {
    histograms := [];
    var i := 0;
    while i < |features|
      invariant 0 <= i <= |features|
      invariant |histograms| == i
      invariant forall k :: 0 <= k < i ==>
        histograms[k].0 == features[k].0 && histograms[k].1 == Histogram(features[k].1, centers)
    {
      var histogram := CalculateQueryHistograms(features[i].1, centers);
      histograms := histograms + [(features[i].0, histogram)];
      i := i + 1;
    }
  }
}
