/**
 * CircleVerification (src/measurement.cpp:53-67): the share of sample points
 * whose distance from a candidate centre differs from the candidate radius by
 * less than one pixel.
 */
module Consensus {
  import opened Geometry

  /** p is an inlier of the circle (center, radius): | |p - center| - radius | < 1. */
  predicate IsInlier(p: Point, center: Point, radius: real, norm: Point -> real) {
    -1.0 < norm(Sub(p, center)) - radius < 1.0
  }

  /** The number of inliers among pts, counted front to back. */
  function InlierCount(pts: seq<Point>, center: Point, radius: real, norm: Point -> real): nat
  {
    if |pts| == 0 then 0
    else
      var last := if IsInlier(pts[|pts| - 1], center, radius, norm) then 1 else 0;
      InlierCount(pts[..|pts| - 1], center, radius, norm) + last
  }

  /** The positions of the inliers in pts: an independent description of the count. */
  function InlierIndices(pts: seq<Point>, center: Point, radius: real, norm: Point -> real): set<nat>
  {
    set i: nat | i < |pts| && IsInlier(pts[i], center, radius, norm)
  }

  /** cnt_inlier / cnt_total. */
  function Score(pts: seq<Point>, center: Point, radius: real, norm: Point -> real): real
    requires |pts| > 0
  {
    InlierCount(pts, center, radius, norm) as real / |pts| as real
  }

  /** The count is the number of inlier positions. */
  lemma {:induction false} InlierCountIsCardinality(pts: seq<Point>, center: Point, radius: real, norm: Point -> real)
    ensures InlierCount(pts, center, radius, norm) == |InlierIndices(pts, center, radius, norm)|
  {
    if |pts| > 0 {
      var init := pts[..|pts| - 1];
      InlierCountIsCardinality(init, center, radius, norm);
      var last: nat := |pts| - 1;
      var before := InlierIndices(init, center, radius, norm);
      var now := InlierIndices(pts, center, radius, norm);
      var added: set<nat> := if IsInlier(pts[last], center, radius, norm) then {last} else {};
      forall i: nat ensures i in now <==> i in before + added {
        if i < last {
          assert init[i] == pts[i];
          assert (i in now) == IsInlier(pts[i], center, radius, norm);
          assert (i in before) == IsInlier(init[i], center, radius, norm);
        } else if i == last {
          assert i !in before;
          assert (i in now) == IsInlier(pts[last], center, radius, norm);
        } else {
          assert i !in now && i !in before;
        }
      }
      assert now == before + added;
      assert last !in before;
    }
  }

  /** At most every point is an inlier. */
  lemma {:induction false} InlierCountBound(pts: seq<Point>, center: Point, radius: real, norm: Point -> real)
    ensures InlierCount(pts, center, radius, norm) <= |pts|
  {
    if |pts| > 0 {
      InlierCountBound(pts[..|pts| - 1], center, radius, norm);
    }
  }

  /** Every point is an inlier exactly when the count is the number of points. */
  lemma {:induction false} AllInliersIff(pts: seq<Point>, center: Point, radius: real, norm: Point -> real)
    ensures InlierCount(pts, center, radius, norm) == |pts|
        <==> forall i :: 0 <= i < |pts| ==> IsInlier(pts[i], center, radius, norm)
  {
    if |pts| > 0 {
      var init := pts[..|pts| - 1];
      AllInliersIff(init, center, radius, norm);
      InlierCountBound(init, center, radius, norm);
      assert forall i :: 0 <= i < |init| ==> init[i] == pts[i];
    }
  }

  /** No point is an inlier exactly when the count is zero. */
  lemma {:induction false} NoInliersIff(pts: seq<Point>, center: Point, radius: real, norm: Point -> real)
    ensures InlierCount(pts, center, radius, norm) == 0
        <==> forall i :: 0 <= i < |pts| ==> !IsInlier(pts[i], center, radius, norm)
  {
    if |pts| > 0 {
      var init := pts[..|pts| - 1];
      NoInliersIff(init, center, radius, norm);
      assert forall i :: 0 <= i < |init| ==> init[i] == pts[i];
    }
  }

  /** The score is a fraction: between 0 and 1. */
  lemma ScoreBounds(pts: seq<Point>, center: Point, radius: real, norm: Point -> real)
    requires |pts| > 0
    ensures 0.0 <= Score(pts, center, radius, norm) <= 1.0
  {
    InlierCountBound(pts, center, radius, norm);
  }

  /** A fraction k / n with n > 0 is 1 exactly when k == n, and 0 exactly when k == 0. */
  lemma FractionExtremes(k: real, n: real, f: real)
    requires n > 0.0 && f * n == k
    ensures f == 1.0 <==> k == n
    ensures f == 0.0 <==> k == 0.0
  {
    assert n * f == k;
    if k == n {
      assert n * f == n * 1.0;
      Cancel(n, f, 1.0);
    }
    if k == 0.0 {
      assert n * f == n * 0.0;
      Cancel(n, f, 0.0);
    }
  }

  /** The score times the number of points is the inlier count. */
  lemma ScoreTimesTotal(pts: seq<Point>, center: Point, radius: real, norm: Point -> real)
    requires |pts| > 0
    ensures Score(pts, center, radius, norm) * |pts| as real == InlierCount(pts, center, radius, norm) as real
  {
  }

  /** The score is 1 exactly when every point is an inlier, and 0 exactly when none is. */
  lemma ScoreExtremes(pts: seq<Point>, center: Point, radius: real, norm: Point -> real)
    requires |pts| > 0
    ensures Score(pts, center, radius, norm) == 1.0
        <==> forall i :: 0 <= i < |pts| ==> IsInlier(pts[i], center, radius, norm)
    ensures Score(pts, center, radius, norm) == 0.0
        <==> forall i :: 0 <= i < |pts| ==> !IsInlier(pts[i], center, radius, norm)
  {
    AllInliersIff(pts, center, radius, norm);
    NoInliersIff(pts, center, radius, norm);
    ScoreTimesTotal(pts, center, radius, norm);
    FractionExtremes(InlierCount(pts, center, radius, norm) as real, |pts| as real, Score(pts, center, radius, norm));
  }

  /** Three distinct inlier positions make the score at least 3 / n. */
  lemma ThreeInliersScore(pts: seq<Point>, center: Point, radius: real, norm: Point -> real, i: nat, j: nat, k: nat)
    requires i < |pts| && j < |pts| && k < |pts| && i != j && i != k && j != k
    requires IsInlier(pts[i], center, radius, norm) && IsInlier(pts[j], center, radius, norm)
    requires IsInlier(pts[k], center, radius, norm)
    ensures Score(pts, center, radius, norm) >= 3.0 / |pts| as real
  {
    var ix := InlierIndices(pts, center, radius, norm);
    InlierCountIsCardinality(pts, center, radius, norm);
    assert {i, j, k} <= ix;
    assert |{i, j, k}| == 3;
    SubsetCardinality({i, j, k}, ix);
    DivideMonotone(3.0, InlierCount(pts, center, radius, norm) as real, |pts| as real);
  }

  lemma DivideMonotone(a: real, b: real, n: real)
    requires a <= b && n > 0.0
    ensures a / n <= b / n
  {
    assert b / n - a / n == (b - a) / n;
  }

  lemma SubsetCardinality(a: set<nat>, b: set<nat>)
    requires a <= b
    ensures |a| <= |b|
  {
    assert b == a + (b - a);
  }

  /**
   * CircleVerification: the fraction of sample points that are inliers of the
   * circle (center, radius).
   */
  method CircleVerification(samplePts: seq<Point>, center: Point, radius: real, norm: Point -> real)
    returns (r: real)
    requires |samplePts| > 0
    ensures r == Score(samplePts, center, radius, norm)
    ensures 0.0 <= r <= 1.0
  {
    var cntTotal := |samplePts|;
    var cntInlier := 0;
    var i := 0;
    while i < cntTotal
      invariant 0 <= i <= cntTotal
      invariant cntInlier == InlierCount(samplePts[..i], center, radius, norm)
    {
      var tempDistance := norm(Sub(samplePts[i], center));
      if -1.0 < tempDistance - radius < 1.0 {
        cntInlier := cntInlier + 1;
      }
      assert samplePts[..i + 1][..i] == samplePts[..i];
      i := i + 1;
    }
    assert samplePts[..i] == samplePts;
    r := cntInlier as real / cntTotal as real;
    ScoreBounds(samplePts, center, radius, norm);
  }
}
