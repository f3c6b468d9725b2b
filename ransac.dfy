/**
 * The RANSAC loop of Measurement::Semicircle (src/measurement.cpp:164-202):
 * each iteration draws three sample indices, skips the iteration when two of
 * them coincide, fits the circle through the three points, scores it with
 * CircleVerification, and keeps it when its score reaches 0.60 and beats the
 * best score so far.
 *
 * rand() is not modelled: each iteration's three raw draws are given as a
 * `Draw`, and the indices are the draws modulo the number of samples.
 */
module Ransac {
  import opened Options
  import opened Geometry
  import opened Consensus
  import opened Sampling

  /** min_inlier_percentage */
  const MinInlierPercentage: real := 0.6

  /** The three raw rand() values one iteration consumes. */
  datatype Draw = Draw(r1: nat, r2: nat, r3: nat)

  /** A fitted circle together with its inlier percentage. */
  datatype Candidate = Candidate(circle: Circle, inlierPercentage: real)

  /** best_inlier_percentage with the circle that achieved it, if any. */
  datatype Best = Best(inlierPercentage: real, circle: Option<Circle>)

  /** Before the first iteration: a score of 0 and no circle. */
  const Initial: Best := Best(0.0, None)

  /** Two of the three indices idx1, idx2, idx3 drawn from d coincide. */
  predicate Coincide(n: nat, d: Draw)
    requires n > 0
  {
    d.r1 % n == d.r2 % n || d.r1 % n == d.r3 % n || d.r3 % n == d.r2 % n
  }

  /**
   * One iteration: None when the iteration is skipped (coinciding indices) or
   * the three points are collinear, so that no centre exists; otherwise the
   * circle through the three points and its inlier percentage. A sample set
   * that is empty also yields None (the source divides by zero there).
   */
  function Trial(pts: seq<Point>, d: Draw, norm: Point -> real): (r: Option<Candidate>)
    ensures r.None? <==> (|pts| == 0 || Coincide(|pts|, d)
      || Collinear(pts[d.r1 % |pts|], pts[d.r2 % |pts|], pts[d.r3 % |pts|]))
    ensures r.Some? ==>
      && CircleFitting(pts[d.r1 % |pts|], pts[d.r2 % |pts|], pts[d.r3 % |pts|], norm) == Some(r.value.circle)
      && r.value.inlierPercentage == Score(pts, r.value.circle.center, r.value.circle.radius, norm)
      && 0.0 <= r.value.inlierPercentage <= 1.0
  {
    if |pts| == 0 || Coincide(|pts|, d) then None
    else
      match CircleFitting(pts[d.r1 % |pts|], pts[d.r2 % |pts|], pts[d.r3 % |pts|], norm)
      case None => None
      case Some(c) =>
        ScoreBounds(pts, c.center, c.radius, norm);
        Some(Candidate(c, Score(pts, c.center, c.radius, norm)))
  }

  /** The trial produced a circle whose score reaches the minimum. */
  predicate Qualifies(t: Option<Candidate>) {
    t.Some? && t.value.inlierPercentage >= MinInlierPercentage
  }

  /** The update rule: a qualifying trial replaces the best when its score is strictly greater. */
  function Step(b: Best, t: Option<Candidate>): (r: Best)
    ensures r.inlierPercentage >= b.inlierPercentage
    ensures WellFormed(b) && (t.Some? ==> t.value.inlierPercentage <= 1.0) ==> WellFormed(r)
  {
    if Qualifies(t) && t.value.inlierPercentage > b.inlierPercentage
    then Best(t.value.inlierPercentage, Some(t.value.circle))
    else b
  }

  /** The best after running the iterations of `draws` in order. */
  function Select(pts: seq<Point>, draws: seq<Draw>, norm: Point -> real): Best {
    if |draws| == 0 then Initial
    else Step(Select(pts, draws[..|draws| - 1], norm), Trial(pts, draws[|draws| - 1], norm))
  }

  /** A best holds a circle exactly when its score is non-zero, and then the score is in [0.60, 1]. */
  predicate WellFormed(b: Best) {
    && (b.circle.None? <==> b.inlierPercentage == 0.0)
    && (b.circle.Some? ==> MinInlierPercentage <= b.inlierPercentage <= 1.0)
  }

  /** The final inlier percentage is 0 with no circle, or at least 0.60 with one. */
  lemma {:induction false} SelectWellFormed(pts: seq<Point>, draws: seq<Draw>, norm: Point -> real)
    ensures WellFormed(Select(pts, draws, norm))
  {
    if |draws| > 0 {
      SelectWellFormed(pts, draws[..|draws| - 1], norm);
    }
  }

  /** Running more iterations never lowers the best score. */
  lemma {:induction false} SelectMonotone(pts: seq<Point>, draws: seq<Draw>, i: nat, norm: Point -> real)
    requires i <= |draws|
    ensures Select(pts, draws[..i], norm).inlierPercentage <= Select(pts, draws, norm).inlierPercentage
    decreases |draws|
  {
    if i < |draws| {
      var init := draws[..|draws| - 1];
      assert init[..i] == draws[..i];
      SelectMonotone(pts, init, i, norm);
    } else {
      assert draws[..i] == draws;
    }
  }

  /** Every qualifying trial scores at most the final best. */
  lemma {:induction false} SelectIsMaximum(pts: seq<Point>, draws: seq<Draw>, k: nat, norm: Point -> real)
    requires k < |draws| && Qualifies(Trial(pts, draws[k], norm))
    ensures Trial(pts, draws[k], norm).value.inlierPercentage <= Select(pts, draws, norm).inlierPercentage
  {
    var init := draws[..|draws| - 1];
    if k < |draws| - 1 {
      assert init[k] == draws[k];
      SelectIsMaximum(pts, init, k, norm);
    }
  }

  /**
   * A final circle comes from some trial k that scored exactly the final
   * percentage, and no earlier qualifying trial scored as much: ties keep the
   * first circle found.
   */
  lemma {:induction false} SelectAttained(pts: seq<Point>, draws: seq<Draw>, norm: Point -> real)
    requires Select(pts, draws, norm).circle.Some?
    ensures exists k :: (0 <= k < |draws|
      && Trial(pts, draws[k], norm)
         == Some(Candidate(Select(pts, draws, norm).circle.value, Select(pts, draws, norm).inlierPercentage))
      && forall j :: 0 <= j < k && Qualifies(Trial(pts, draws[j], norm))
           ==> Trial(pts, draws[j], norm).value.inlierPercentage < Select(pts, draws, norm).inlierPercentage)
  {
    var init := draws[..|draws| - 1];
    var b := Select(pts, draws, norm);
    var last := |draws| - 1;
    if Select(pts, init, norm) == b {
      SelectAttained(pts, init, norm);
      var k :| 0 <= k < |init|
        && Trial(pts, init[k], norm) == Some(Candidate(b.circle.value, b.inlierPercentage))
        && forall j :: 0 <= j < k && Qualifies(Trial(pts, init[j], norm))
             ==> Trial(pts, init[j], norm).value.inlierPercentage < b.inlierPercentage;
      assert forall j :: 0 <= j <= k ==> init[j] == draws[j];
    } else {
      forall j | 0 <= j < last && Qualifies(Trial(pts, draws[j], norm))
        ensures Trial(pts, draws[j], norm).value.inlierPercentage < b.inlierPercentage
      {
        assert init[j] == draws[j];
        SelectIsMaximum(pts, init, j, norm);
      }
      assert Trial(pts, draws[last], norm) == Some(Candidate(b.circle.value, b.inlierPercentage));
    }
  }

  /** No circle is found exactly when no trial qualifies. */
  lemma {:induction false} SelectNoneIff(pts: seq<Point>, draws: seq<Draw>, norm: Point -> real)
    ensures Select(pts, draws, norm).circle.None?
        <==> forall k :: 0 <= k < |draws| ==> !Qualifies(Trial(pts, draws[k], norm))
  {
    SelectWellFormed(pts, draws, norm);
    if Select(pts, draws, norm).circle.None? {
      forall k | 0 <= k < |draws| ensures !Qualifies(Trial(pts, draws[k], norm)) {
        if Qualifies(Trial(pts, draws[k], norm)) {
          SelectIsMaximum(pts, draws, k, norm);
        }
      }
    } else {
      SelectAttained(pts, draws, norm);
    }
  }

  /** With fewer than three samples every iteration is skipped and no circle is found. */
  lemma FewSamplesNoTrial(pts: seq<Point>, d: Draw, norm: Point -> real)
    requires |pts| < 3
    ensures Trial(pts, d, norm).None?
  {
  }

  /** With fewer than three samples no circle is found. */
  lemma FewSamplesNoCircle(pts: seq<Point>, draws: seq<Draw>, norm: Point -> real)
    requires |pts| < 3
    ensures Select(pts, draws, norm) == Initial
  {
    forall k | 0 <= k < |draws| ensures !Qualifies(Trial(pts, draws[k], norm)) {
      FewSamplesNoTrial(pts, draws[k], norm);
    }
    SelectNoneIff(pts, draws, norm);
    SelectWellFormed(pts, draws, norm);
  }

  /** Nonnegative reals with equal squares are equal. */
  lemma EqualSquares(a: real, b: real)
    requires a >= 0.0 && b >= 0.0 && a * a == b * b
    ensures a == b
  {
    assert (a + b) * (a - b) == (a + b) * 0.0;
    if a + b != 0.0 {
      Cancel(a + b, a - b, 0.0);
    }
  }

  /** SqDist is symmetric. */
  lemma SqDistSymmetric(p: Point, q: Point)
    ensures SqDist(p, q) == SqDist(q, p)
  {
  }

  /** A point on a circle with non-negative radius is an inlier of it, under a Euclidean norm. */
  lemma OnCircleInlier(c: Circle, p: Point, norm: Point -> real)
    requires IsEuclidean(norm) && c.radius >= 0.0 && OnCircle(c, p)
    ensures IsInlier(p, c.center, c.radius, norm)
  {
    var v := Sub(p, c.center);
    assert norm(v) >= 0.0 && norm(v) * norm(v) == SqNorm(v);
    SqDistSymmetric(p, c.center);
    EqualSquares(norm(v), c.radius);
  }

  /**
   * Under a Euclidean norm, the three drawn points are inliers of the circle
   * fitted through them, so a completed trial scores at least 3 / n.
   */
  lemma TrialCountsItsPoints(pts: seq<Point>, d: Draw, norm: Point -> real)
    requires IsEuclidean(norm) && Trial(pts, d, norm).Some?
    ensures Trial(pts, d, norm).value.inlierPercentage >= 3.0 / |pts| as real
  {
    var n := |pts|;
    var i1, i2, i3 := d.r1 % n, d.r2 % n, d.r3 % n;
    var c := Trial(pts, d, norm).value.circle;
    CircleFittingRadius(pts[i1], pts[i2], pts[i3], norm);
    OnCircleInlier(c, pts[i1], norm);
    OnCircleInlier(c, pts[i2], norm);
    OnCircleInlier(c, pts[i3], norm);
    ThreeInliersScore(pts, c.center, c.radius, norm, i1, i2, i3);
  }

  /**
   * The RANSAC loop: runs `iterationTimes` iterations, the it-th consuming
   * rands[it], and returns the best inlier percentage with its circle.
   */
  method RansacBestCircle(samplePts: seq<Point>, iterationTimes: nat, rands: seq<Draw>, norm: Point -> real)
    returns (best: Best)
    requires |rands| == iterationTimes
    ensures best == Select(samplePts, rands, norm)
  {
    var bestInlierPercentage := 0.0;
    var bestCircle: Option<Circle> := None;
    var n := |samplePts|;
    var it := 0;
    while it < iterationTimes
      invariant 0 <= it <= iterationTimes
      invariant Best(bestInlierPercentage, bestCircle) == Select(samplePts, rands[..it], norm)
    {
      assert rands[..it + 1][..it] == rands[..it];
      if n > 0 {
        var idx1, idx2, idx3 := rands[it].r1 % n, rands[it].r2 % n, rands[it].r3 % n;
        if !(idx1 == idx2 || idx1 == idx3 || idx3 == idx2) {
          var fit := CircleFitting(samplePts[idx1], samplePts[idx2], samplePts[idx3], norm);
          if fit.Some? {
            var tempInlierPercentage := CircleVerification(samplePts, fit.value.center, fit.value.radius, norm);
            if tempInlierPercentage >= MinInlierPercentage {
              if tempInlierPercentage > bestInlierPercentage {
                bestInlierPercentage := tempInlierPercentage;
                bestCircle := fit;
              }
            }
          }
        }
      }
      it := it + 1;
    }
    assert rands[..it] == rands;
    best := Best(bestInlierPercentage, bestCircle);
  }

  /*
   * The loop as written: best_radius starts indeterminate (radius0 below),
   * best_center starts at (0, 0) as cv::Point2f's default constructor sets it,
   * and both are pushed whether or not some trial qualified;
   * `rand() % sample_pts.size()` needs a non-empty sample set.
   */

  /** best_inlier_percentage, best_radius and best_center as the source keeps them. */
  datatype AsWrittenBest = AsWrittenBest(inlierPercentage: real, radius: real, center: Point)

  /** The index computation is defined: some sample exists, or no iteration runs. */
  predicate AsWrittenDefined(pts: seq<Point>, draws: seq<Draw>) {
    |pts| > 0 || |draws| == 0
  }

  /** The update rule as written: a replacement also overwrites best_radius and best_center. */
  function StepAsWritten(b: AsWrittenBest, t: Option<Candidate>): AsWrittenBest {
    if Qualifies(t) && t.value.inlierPercentage > b.inlierPercentage
    then AsWrittenBest(t.value.inlierPercentage, t.value.circle.radius, t.value.circle.center)
    else b
  }

  /** The point cv::Point2f() constructs. */
  const Origin: Point := Point(0.0, 0.0)

  /** The loop as written, from the indeterminate initial radius0. */
  function SelectAsWritten(pts: seq<Point>, draws: seq<Draw>, norm: Point -> real, radius0: real): AsWrittenBest
    requires AsWrittenDefined(pts, draws)
  {
    if |draws| == 0 then AsWrittenBest(0.0, radius0, Origin)
    else StepAsWritten(SelectAsWritten(pts, draws[..|draws| - 1], norm, radius0),
                       Trial(pts, draws[|draws| - 1], norm))
  }

  /**
   * The as-written loop agrees with Select when a circle is found, and returns
   * the indeterminate initial radius and the centre (0, 0) when none is.
   */
  lemma {:induction false} AsWrittenAgreement(pts: seq<Point>, draws: seq<Draw>, norm: Point -> real, radius0: real)
    requires AsWrittenDefined(pts, draws)
    ensures var b := Select(pts, draws, norm);
      SelectAsWritten(pts, draws, norm, radius0)
      == match b.circle
         case Some(c) => AsWrittenBest(b.inlierPercentage, c.radius, c.center)
         case None => AsWrittenBest(0.0, radius0, Origin)
  {
    if |draws| > 0 {
      AsWrittenAgreement(pts, draws[..|draws| - 1], norm, radius0);
      SelectWellFormed(pts, draws[..|draws| - 1], norm);
    }
  }

  /**
   * One sample point and one iteration: the draws coincide, nothing qualifies,
   * the radius the source pushes is whatever best_radius held and the centre
   * is (0, 0).
   */
  lemma UninitialisedRadiusPushed(p: Point, norm: Point -> real, radius0: real)
    ensures SelectAsWritten([p], [Draw(0, 0, 0)], norm, radius0).radius == radius0
    ensures SelectAsWritten([p], [Draw(0, 0, 0)], norm, radius0).center == Origin
    ensures Select([p], [Draw(0, 0, 0)], norm).circle == None
  {
    AsWrittenAgreement([p], [Draw(0, 0, 0)], norm, radius0);
    FewSamplesNoCircle([p], [Draw(0, 0, 0)], norm);
  }

  /**
   * An edge image with no set grid pixel leaves no sample, and then the source's
   * `rand() % sample_pts.size()` divides by zero on the first iteration: the
   * as-written loop SelectAsWritten is undefined on these samples and draws.
   */
  lemma BlankEdgeImageDividesByZero(m: Mat, draws: seq<Draw>)
    requires forall x, y :: !SampledPixel(m, x, y)
    requires |draws| > 0
    ensures GridScan(m) == []
    ensures !AsWrittenDefined(GridScan(m), draws)
  {
    NoSamplesIffBlank(m);
  }

  /** With no sample, the corrected loop finds no circle and keeps the initial score. */
  lemma NoSamplesNoCircle(draws: seq<Draw>, norm: Point -> real)
    ensures Select([], draws, norm) == Initial
  {
    FewSamplesNoCircle([], draws, norm);
  }
}
