/**
 * GetSamplePoints (src/measurement.cpp:28-40): the edge image is scanned on a
 * grid of stride 5 in both directions, rows outermost, and every grid pixel
 * with a non-zero value is appended to the sample vector as the point (x, y).
 */
module Sampling {
  import opened Geometry

  /** An 8-bit unsigned pixel (uchar). */
  newtype uint8 = x: int | 0 <= x < 0x100

  /** A single-channel 8-bit image as rows of pixels. */
  type Mat = seq<seq<uint8>>

  /** The grid stride of the sampler in both directions. */
  const Stride: nat := 5

  /** m has `rows` rows of `cols` pixels each. */
  predicate IsMat(m: Mat, rows: nat, cols: nat) {
    |m| == rows && forall i :: 0 <= i < |m| ==> |m[i]| == cols
  }

  /** The pixels of an image buffer, row by row. */
  function Contents(a: array2<uint8>): (m: Mat)
    reads a
    ensures IsMat(m, a.Length0, a.Length1)
    ensures forall i, j :: 0 <= i < a.Length0 && 0 <= j < a.Length1 ==> m[i][j] == a[i, j]
  {
    seq(a.Length0, i requires 0 <= i < a.Length0 reads a =>
      seq(a.Length1, j requires 0 <= j < a.Length1 reads a => a[i, j]))
  }

  /** The sample point of column x, row y: cv::Point2f(x, y). */
  function GridPoint(x: int, y: int): Point {
    Point(x as real, y as real)
  }

  /** The samples of one row, from column x onwards. */
  function RowScan(row: seq<uint8>, y: int, x: nat): seq<Point>
    decreases |row| - x
  {
    if x >= |row| then []
    else (if row[x] > 0 then [GridPoint(x, y)] else []) + RowScan(row, y, x + Stride)
  }

  /** The samples of the rows y, y + 5, ... of m. */
  function RowsScan(m: Mat, y: nat): seq<Point>
    decreases |m| - y
  {
    if y >= |m| then [] else RowScan(m[y], y, 0) + RowsScan(m, y + Stride)
  }

  /** All samples of m, in the order the source appends them. */
  function GridScan(m: Mat): seq<Point> {
    RowsScan(m, 0)
  }

  /** Pixel (x, y) is on the sampling grid of m and is set. */
  predicate SampledPixel(m: Mat, x: int, y: int) {
    0 <= y < |m| && 0 <= x < |m[y]| && y % Stride == 0 && x % Stride == 0 && m[y][x] > 0
  }

  /** p is the point of a set grid pixel of m. */
  predicate Sampled(m: Mat, p: Point) {
    p == GridPoint(p.x.Floor, p.y.Floor) && SampledPixel(m, p.x.Floor, p.y.Floor)
  }

  /** p comes strictly before q when scanning rows top to bottom, each left to right. */
  predicate RowMajorBefore(p: Point, q: Point) {
    p.y < q.y || (p.y == q.y && p.x < q.x)
  }

  /** Every point of s comes strictly before every later point of s. */
  predicate StrictlyRowMajor(s: seq<Point>) {
    forall i, j :: 0 <= i < j < |s| ==> RowMajorBefore(s[i], s[j])
  }

  lemma GridPointFloor(x: int, y: int)
    ensures GridPoint(x, y).x.Floor == x && GridPoint(x, y).y.Floor == y
  {
  }

  /** Every point of RowScan(row, y, x) is a set pixel of the row at a column x + 5k, and lies in row y. */
  lemma {:induction false} RowScanSound(m: Mat, y: nat, x: nat, p: Point)
    requires y < |m| && y % Stride == 0 && x % Stride == 0
    requires p in RowScan(m[y], y, x)
    ensures Sampled(m, p) && p.y == y as real && p.x >= x as real
    decreases |m[y]| - x
  {
    if x < |m[y]| {
      if m[y][x] > 0 && p == GridPoint(x, y) {
        GridPointFloor(x, y);
      } else {
        assert p in RowScan(m[y], y, x + Stride);
        RowScanSound(m, y, x + Stride, p);
      }
    }
  }

  /** Every point of RowsScan(m, y) is a sampled pixel of m in row y or below. */
  lemma {:induction false} RowsScanSound(m: Mat, y: nat, p: Point)
    requires y % Stride == 0
    requires p in RowsScan(m, y)
    ensures Sampled(m, p) && p.y >= y as real
    decreases |m| - y
  {
    if y < |m| {
      if p in RowScan(m[y], y, 0) {
        RowScanSound(m, y, 0, p);
      } else {
        RowsScanSound(m, y + Stride, p);
      }
    }
  }

  /** Sampler soundness: every sample is a set grid pixel of the image. */
  lemma GridScanSound(m: Mat, p: Point)
    requires p in GridScan(m)
    ensures Sampled(m, p)
  {
    RowsScanSound(m, 0, p);
  }

  /** Every set grid pixel of row y at column x or beyond is in RowScan(row, y, x). */
  lemma {:induction false} RowScanComplete(m: Mat, y: nat, x: nat, x': int)
    requires SampledPixel(m, x', y)
    requires x % Stride == 0 && x <= x'
    ensures GridPoint(x', y) in RowScan(m[y], y, x)
    decreases |m[y]| - x
  {
    if x < x' {
      RowScanComplete(m, y, x + Stride, x');
    }
  }

  /** Every set grid pixel in row y or below is in RowsScan(m, y). */
  lemma {:induction false} RowsScanComplete(m: Mat, y: nat, x': int, y': int)
    requires SampledPixel(m, x', y')
    requires y % Stride == 0 && y <= y'
    ensures GridPoint(x', y') in RowsScan(m, y)
    decreases |m| - y
  {
    if y < y' {
      RowsScanComplete(m, y + Stride, x', y');
    } else {
      RowScanComplete(m, y, 0, x');
    }
  }

  /** Sampler completeness: every set grid pixel of the image is sampled. */
  lemma GridScanComplete(m: Mat, x: int, y: int)
    requires SampledPixel(m, x, y)
    ensures GridPoint(x, y) in GridScan(m)
  {
    RowsScanComplete(m, 0, x, y);
  }

  /** A sample of the image is exactly the point of a set grid pixel. */
  lemma GridScanMembership(m: Mat, p: Point)
    ensures p in GridScan(m) <==> Sampled(m, p)
  {
    if p in GridScan(m) {
      GridScanSound(m, p);
    } else if Sampled(m, p) {
      GridScanComplete(m, p.x.Floor, p.y.Floor);
    }
  }

  /** Two row-major runs, the first entirely before the second, join into one. */
  lemma ConcatRowMajor(s: seq<Point>, t: seq<Point>)
    requires StrictlyRowMajor(s) && StrictlyRowMajor(t)
    requires forall i, j :: 0 <= i < |s| && 0 <= j < |t| ==> RowMajorBefore(s[i], t[j])
    ensures StrictlyRowMajor(s + t)
  {
    forall i, j | 0 <= i < j < |s + t|
      ensures RowMajorBefore((s + t)[i], (s + t)[j])
    {
      if j < |s| {
        assert (s + t)[i] == s[i] && (s + t)[j] == s[j];
      } else if i >= |s| {
        assert (s + t)[i] == t[i - |s|] && (s + t)[j] == t[j - |s|];
      } else {
        assert (s + t)[i] == s[i] && (s + t)[j] == t[j - |s|];
      }
    }
  }

  /** The samples of one row run left to right, all in row y and from column x on. */
  lemma {:induction false} RowScanOrdered(row: seq<uint8>, y: int, x: nat)
    ensures StrictlyRowMajor(RowScan(row, y, x))
    ensures forall p :: p in RowScan(row, y, x) ==> p.y == y as real && p.x >= x as real
    decreases |row| - x
  {
    if x < |row| {
      RowScanOrdered(row, y, x + Stride);
      var head: seq<Point> := if row[x] > 0 then [GridPoint(x, y)] else [];
      var tail := RowScan(row, y, x + Stride);
      forall i, j | 0 <= i < |head| && 0 <= j < |tail|
        ensures RowMajorBefore(head[i], tail[j])
      {
        assert tail[j] in tail;
      }
      ConcatRowMajor(head, tail);
    }
  }

  /** The samples of rows y, y + 5, ... run in row-major order, all in row y or below. */
  lemma {:induction false} RowsScanOrdered(m: Mat, y: nat)
    ensures StrictlyRowMajor(RowsScan(m, y))
    ensures forall p :: p in RowsScan(m, y) ==> p.y >= y as real
    decreases |m| - y
  {
    if y < |m| {
      RowScanOrdered(m[y], y, 0);
      RowsScanOrdered(m, y + Stride);
      var head := RowScan(m[y], y, 0);
      var tail := RowsScan(m, y + Stride);
      forall i, j | 0 <= i < |head| && 0 <= j < |tail|
        ensures RowMajorBefore(head[i], tail[j])
      {
        assert head[i] in head;
        assert tail[j] in tail;
      }
      ConcatRowMajor(head, tail);
    }
  }

  /** Samples appear in row-major order, each at most once. */
  lemma GridScanOrdered(m: Mat)
    ensures StrictlyRowMajor(GridScan(m))
    ensures forall i, j :: 0 <= i < j < |GridScan(m)| ==> GridScan(m)[i] != GridScan(m)[j]
  {
    RowsScanOrdered(m, 0);
  }

  /** An image with no set grid pixel yields no sample at all, and conversely. */
  lemma NoSamplesIffBlank(m: Mat)
    ensures GridScan(m) == [] <==> forall x, y :: !SampledPixel(m, x, y)
  {
    if GridScan(m) != [] {
      GridScanSound(m, GridScan(m)[0]);
    } else {
      forall x, y ensures !SampledPixel(m, x, y) {
        if SampledPixel(m, x, y) {
          GridScanComplete(m, x, y);
        }
      }
    }
  }

  /** One column of the row scan. */
  lemma RowScanStep(row: seq<uint8>, y: int, x: nat)
    requires x < |row|
    ensures RowScan(row, y, x) == (if row[x] > 0 then [GridPoint(x, y)] else []) + RowScan(row, y, x + Stride)
  {
  }

  /** One row of the image scan. */
  lemma RowsScanStep(m: Mat, y: nat)
    requires y < |m|
    ensures RowsScan(m, y) == RowScan(m[y], y, 0) + RowsScan(m, y + Stride)
  {
  }

  /**
   * GetSamplePoints: appends the samples of src, in row-major order, to the
   * vector it is given.
   */
  method GetSamplePoints(src: array2<uint8>, samplePts0: seq<Point>) returns (samplePts: seq<Point>)
    ensures samplePts == samplePts0 + GridScan(Contents(src))
  {
    ghost var m := Contents(src);
    samplePts := samplePts0;
    var y := 0;
    while y < src.Length0
      invariant samplePts0 + GridScan(m) == samplePts + RowsScan(m, y)
      decreases src.Length0 - y
    {
      ghost var below := RowsScan(m, y + Stride);
      RowsScanStep(m, y);
      var x := 0;
      while x < src.Length1
        invariant samplePts0 + GridScan(m) == samplePts + (RowScan(m[y], y, x) + below)
        decreases src.Length1 - x
      {
        assert src[y, x] == m[y][x];
        ghost var head: seq<Point> := if m[y][x] > 0 then [GridPoint(x, y)] else [];
        RowScanStep(m[y], y, x);
        Associative(head, RowScan(m[y], y, x + Stride), below);
        Associative(samplePts, head, RowScan(m[y], y, x + Stride) + below);
        if src[y, x] > 0 {
          samplePts := samplePts + [GridPoint(x, y)];
        }
        x := x + Stride;
      }
      y := y + Stride;
    }
  }

  lemma Associative(a: seq<Point>, b: seq<Point>, c: seq<Point>)
    ensures a + (b + c) == (a + b) + c
  {
  }
}
