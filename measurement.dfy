/**
 * The Measurement class (include/measurement.h:46-80) and its Semicircle
 * operation (src/measurement.cpp:117-217): for every image, crop the ROI,
 * take its edge image, blank the half of its central band that faces the
 * plate's interior, sample it, run RANSAC, and append the best circle's
 * inlier percentage, centre and radius to the vectors of the chosen side.
 *
 * The Gaussian blur is the abstract `blur`, which gives the blurred pixels of
 * an image's ROI; the source blurs through the ROI view, so the result is
 * written back into the stored image. Canny is the abstract `canny`. The
 * random draws of each image's RANSAC loop are given per image.
 */
module Measurement {
  import opened Options
  import opened Geometry
  import opened Sampling
  import opened Ransac

  /** semicircle_type: "left" or "right". */
  datatype Side = Left | Right

  /** A cv::Rect: upper-left corner, width and height. */
  datatype Rect = Rect(x: int, y: int, width: int, height: int)

  /** Column x, row y lies in r. */
  predicate InRect(r: Rect, x: int, y: int) {
    r.x <= x < r.x + r.width && r.y <= y < r.y + r.height
  }

  /** r lies inside an image of rows x cols pixels, as cropping with cv::Mat::operator() demands. */
  predicate RoiInside(r: Rect, rows: nat, cols: nat) {
    0 <= r.x && 0 <= r.width && r.x + r.width <= cols && 0 <= r.y && 0 <= r.height && r.y + r.height <= rows
  }

  /** The width of an image given as rows. */
  function Cols(img: Mat): nat {
    if |img| == 0 then 0 else |img[0]|
  }

  /** img (rows x cols) cropped to r: pixel (i, j) of the crop is pixel (r.y + i, r.x + j) of img. */
  function Crop(img: Mat, rows: nat, cols: nat, r: Rect): (c: Mat)
    requires IsMat(img, rows, cols) && RoiInside(r, rows, cols)
    ensures IsMat(c, r.height, r.width)
    ensures forall i, j :: 0 <= i < r.height && 0 <= j < r.width ==> c[i][j] == img[r.y + i][r.x + j]
  {
    seq(r.height, i requires 0 <= i < r.height =>
      seq(r.width, j requires 0 <= j < r.width => img[r.y + i][r.x + j]))
  }

  /** img with the pixels of r replaced by patch: a write through the ROI view img(r). */
  function Paste(img: Mat, r: Rect, patch: Mat): (p: Mat)
    requires IsMat(img, |img|, Cols(img)) && RoiInside(r, |img|, Cols(img)) && IsMat(patch, r.height, r.width)
    ensures IsMat(p, |img|, Cols(img)) && |p| == |img| && Cols(p) == Cols(img)
  {
    seq(|img|, i requires 0 <= i < |img| =>
      seq(Cols(img), j requires 0 <= j < Cols(img) =>
        if InRect(r, j, i) then patch[i - r.y][j - r.x] else img[i][j]))
  }

  /** Reading the ROI back after writing patch into it gives patch. */
  lemma CropPaste(img: Mat, r: Rect, patch: Mat)
    requires IsMat(img, |img|, Cols(img)) && RoiInside(r, |img|, Cols(img)) && IsMat(patch, r.height, r.width)
    ensures Crop(Paste(img, r, patch), |img|, Cols(img), r) == patch
  {
    SamePixels(Crop(Paste(img, r, patch), |img|, Cols(img), r), patch, r.height, r.width);
  }

  /** Writing the ROI's own pixels back leaves the image as it was. */
  lemma PasteCrop(img: Mat, r: Rect)
    requires IsMat(img, |img|, Cols(img)) && RoiInside(r, |img|, Cols(img))
    ensures Paste(img, r, Crop(img, |img|, Cols(img), r)) == img
  {
    SamePixels(Paste(img, r, Crop(img, |img|, Cols(img), r)), img, |img|, Cols(img));
  }

  /** Writing into the ROI leaves every pixel outside it unchanged. */
  lemma PasteOutside(img: Mat, r: Rect, patch: Mat, i: nat, j: nat)
    requires IsMat(img, |img|, Cols(img)) && RoiInside(r, |img|, Cols(img)) && IsMat(patch, r.height, r.width)
    requires i < |img| && j < Cols(img) && !InRect(r, j, i)
    ensures Paste(img, r, patch)[i][j] == img[i][j]
  {
  }

  /**
   * The central zone blanked before sampling: the right half (left semicircle)
   * or the left half (right semicircle) of the band of rows [rows/4, rows/4 + rows/2).
   */
  function CenterZone(side: Side, rows: nat, cols: nat): Rect {
    match side
    case Left => Rect(cols / 2, rows / 4, cols / 2, rows / 2)
    case Right => Rect(0, rows / 4, cols / 2, rows / 2)
  }

  /** m (rows x cols) with every pixel of zone set to 0, as cv::rectangle with thickness -1 paints it. */
  function ZoneFilled(m: Mat, rows: nat, cols: nat, zone: Rect): (f: Mat)
    requires IsMat(m, rows, cols)
    ensures IsMat(f, rows, cols)
  {
    seq(rows, i requires 0 <= i < rows =>
      seq(cols, j requires 0 <= j < cols => if InRect(zone, j, i) then 0 else m[i][j]))
  }

  /** Each centre zone lies inside the edge image. */
  lemma CenterZoneInside(side: Side, rows: nat, cols: nat)
    ensures RoiInside(CenterZone(side, rows, cols), rows, cols)
  {
  }

  /**
   * The two zones split the band: a pixel of the band's first 2 (cols/2)
   * columns lies in exactly one of them, and no pixel outside the band, nor
   * the last column of an odd-width image, lies in either.
   */
  lemma CenterZonesSplitBand(rows: nat, cols: nat, x: int, y: int)
    requires 0 <= x < cols && 0 <= y < rows
    ensures !(InRect(CenterZone(Left, rows, cols), x, y) && InRect(CenterZone(Right, rows, cols), x, y))
    ensures (InRect(CenterZone(Left, rows, cols), x, y) || InRect(CenterZone(Right, rows, cols), x, y))
        <==> rows / 4 <= y < rows / 4 + rows / 2 && x < 2 * (cols / 2)
  {
  }

  /** Blanking the zone removes exactly the samples inside it and keeps all others. */
  lemma ZoneFilledSamples(m: Mat, rows: nat, cols: nat, zone: Rect, p: Point)
    requires IsMat(m, rows, cols)
    ensures p in GridScan(ZoneFilled(m, rows, cols, zone))
        <==> p in GridScan(m) && !InRect(zone, p.x.Floor, p.y.Floor)
  {
    GridScanMembership(m, p);
    GridScanMembership(ZoneFilled(m, rows, cols, zone), p);
  }

  /** After blanking, no sample lies in the centre zone. */
  lemma NoSampleInCenterZone(m: Mat, rows: nat, cols: nat, side: Side, p: Point)
    requires IsMat(m, rows, cols)
    requires p in GridScan(ZoneFilled(m, rows, cols, CenterZone(side, rows, cols)))
    ensures !InRect(CenterZone(side, rows, cols), p.x.Floor, p.y.Floor)
  {
    ZoneFilledSamples(m, rows, cols, CenterZone(side, rows, cols), p);
  }

  /** Two images of the same size with the same pixels are equal. */
  lemma SamePixels(a: Mat, b: Mat, rows: nat, cols: nat)
    requires IsMat(a, rows, cols) && IsMat(b, rows, cols)
    requires forall i, j :: 0 <= i < rows && 0 <= j < cols ==> a[i][j] == b[i][j]
    ensures a == b
  {
    forall i | 0 <= i < rows
      ensures a[i] == b[i]
    {
      assert forall j :: 0 <= j < cols ==> a[i][j] == b[i][j];
    }
  }

  /** cv::rectangle(img_edge, center_zone, cv::Scalar(0), -1): paints the centre zone black in place. */
  method FillCenterZone(edge: array2<uint8>, side: Side)
    modifies edge
    ensures Contents(edge)
         == ZoneFilled(old(Contents(edge)), edge.Length0, edge.Length1, CenterZone(side, edge.Length0, edge.Length1))
  {
    var zone := CenterZone(side, edge.Length0, edge.Length1);
    ghost var before := Contents(edge);
    forall i, j | 0 <= i < edge.Length0 && 0 <= j < edge.Length1 && InRect(zone, j, i) {
      edge[i, j] := 0;
    }
    SamePixels(Contents(edge), ZoneFilled(before, edge.Length0, edge.Length1, zone), edge.Length0, edge.Length1);
  }

  /** A fresh image buffer holding m. */
  method ToArray(m: Mat, rows: nat, cols: nat) returns (a: array2<uint8>)
    requires IsMat(m, rows, cols)
    ensures fresh(a) && a.Length0 == rows && a.Length1 == cols
    ensures Contents(a) == m
  {
    a := new uint8[rows, cols]((i, j) requires 0 <= i < rows && 0 <= j < cols => m[i][j]);
    SamePixels(Contents(a), m, rows, cols);
  }

  /** The edge detector keeps the image size, as cv::Canny does. */
  ghost predicate KeepsSize(canny: Mat -> Mat) {
    forall m: Mat {:trigger canny(m)} :: IsMat(m, |m|, Cols(m)) ==> IsMat(canny(m), |m|, Cols(m))
  }

  /** The blur gives an image the size of the ROI. */
  ghost predicate BlursRoi(blur: (Mat, Rect) -> Mat) {
    forall m: Mat, r: Rect {:trigger blur(m, r)} ::
      IsMat(m, |m|, Cols(m)) && RoiInside(r, |m|, Cols(m)) ==> IsMat(blur(m, r), r.height, r.width)
  }

  /** Every image is a rectangle of pixels. */
  predicate AllRectangular(images: seq<Mat>) {
    forall i :: 0 <= i < |images| ==> IsMat(images[i], |images[i]|, Cols(images[i]))
  }

  /** The ROI lies inside every image. */
  predicate RoiInsideAll(r: Rect, images: seq<Mat>) {
    forall i :: 0 <= i < |images| ==> RoiInside(r, |images[i]|, Cols(images[i]))
  }

  /**
   * The best circle found in one image: the ROI is blurred, its edges taken,
   * the centre zone blanked, the rest sampled and RANSAC run on the samples.
   */
  function ImageResult(img: Mat, r: Rect, side: Side, blur: (Mat, Rect) -> Mat, canny: Mat -> Mat,
                       draws: seq<Draw>, norm: Point -> real): Best
    requires IsMat(img, |img|, Cols(img)) && RoiInside(r, |img|, Cols(img)) && BlursRoi(blur) && KeepsSize(canny)
  {
    var edge := canny(blur(img, r));
    Select(GridScan(ZoneFilled(edge, r.height, r.width, CenterZone(side, r.height, r.width))), draws, norm)
  }

  /** The loop body of Semicircle for one image, apart from the ROI assignment and the pushes. */
  method MeasureImage(img: Mat, r: Rect, side: Side, iterationTimes: nat, blur: (Mat, Rect) -> Mat,
                      canny: Mat -> Mat, draws: seq<Draw>, norm: Point -> real) returns (imgRoi: Mat, best: Best)
    requires IsMat(img, |img|, Cols(img)) && RoiInside(r, |img|, Cols(img)) && BlursRoi(blur) && KeepsSize(canny)
    requires |draws| == iterationTimes
    ensures imgRoi == blur(img, r)
    ensures best == ImageResult(img, r, side, blur, canny, draws, norm)
    ensures WellFormed(best)
  {
    imgRoi := blur(img, r);
    var edgeImage := canny(imgRoi);
    var imgEdge := ToArray(edgeImage, r.height, r.width);
    FillCenterZone(imgEdge, side);
    ghost var blanked := ZoneFilled(edgeImage, r.height, r.width, CenterZone(side, r.height, r.width));
    assert Contents(imgEdge) == blanked;
    var samplePts := GetSamplePoints(imgEdge, []);
    assert samplePts == GridScan(blanked);
    best := RansacBestCircle(samplePts, iterationTimes, draws, norm);
    SelectWellFormed(samplePts, draws, norm);
  }

  /** The results of the first n images, in order. */
  function Results(images: seq<Mat>, n: nat, r: Rect, side: Side, blur: (Mat, Rect) -> Mat, canny: Mat -> Mat,
                   draws: seq<seq<Draw>>, norm: Point -> real): seq<Best>
    requires n <= |images| && |draws| == |images|
    requires AllRectangular(images) && RoiInsideAll(r, images) && BlursRoi(blur) && KeepsSize(canny)
  {
    seq(n, i requires 0 <= i < n => ImageResult(images[i], r, side, blur, canny, draws[i], norm))
  }

  /** The results of n + 1 images are those of n images followed by the result of image n. */
  lemma ResultsSnoc(images: seq<Mat>, n: nat, r: Rect, side: Side, blur: (Mat, Rect) -> Mat, canny: Mat -> Mat,
                    draws: seq<seq<Draw>>, norm: Point -> real)
    requires n < |images| && |draws| == |images|
    requires AllRectangular(images) && RoiInsideAll(r, images) && BlursRoi(blur) && KeepsSize(canny)
    ensures Results(images, n + 1, r, side, blur, canny, draws, norm)
         == Results(images, n, r, side, blur, canny, draws, norm)
            + [ImageResult(images[n], r, side, blur, canny, draws[n], norm)]
  {
  }

  /** The stored images after the blur of every ROI has been written back through the ROI view. */
  function Blurred(images: seq<Mat>, r: Rect, blur: (Mat, Rect) -> Mat): (bi: seq<Mat>)
    requires AllRectangular(images) && RoiInsideAll(r, images) && BlursRoi(blur)
    ensures |bi| == |images|
    ensures forall i :: 0 <= i < |images| ==> |bi[i]| == |images[i]| && Cols(bi[i]) == Cols(images[i])
    ensures AllRectangular(bi) && RoiInsideAll(r, bi)
  {
    seq(|images|, i requires 0 <= i < |images| => Paste(images[i], r, blur(images[i], r)))
  }

  /**
   * After the write-back, the ROI of every image holds its blurred pixels and
   * every pixel outside the ROI is as before.
   */
  lemma BlurredImages(images: seq<Mat>, r: Rect, blur: (Mat, Rect) -> Mat, k: nat)
    requires AllRectangular(images) && RoiInsideAll(r, images) && BlursRoi(blur) && k < |images|
    ensures Crop(Blurred(images, r, blur)[k], |images[k]|, Cols(images[k]), r) == blur(images[k], r)
    ensures forall i, j :: 0 <= i < |images[k]| && 0 <= j < Cols(images[k]) && !InRect(r, j, i)
                           ==> Blurred(images, r, blur)[k][i][j] == images[k][i][j]
  {
    CropPaste(images[k], r, blur(images[k], r));
  }

  /** The inlier percentage of each result. */
  function Percentages(bs: seq<Best>): (ps: seq<real>)
    ensures |ps| == |bs| && forall i :: 0 <= i < |bs| ==> ps[i] == bs[i].inlierPercentage
  {
    seq(|bs|, i requires 0 <= i < |bs| => bs[i].inlierPercentage)
  }

  /** The centre of each result, None where no circle was found. */
  function Centers(bs: seq<Best>): (cs: seq<Option<Point>>)
    ensures |cs| == |bs|
    ensures forall i :: 0 <= i < |bs| ==> (cs[i].Some? <==> bs[i].circle.Some?)
    ensures forall i :: 0 <= i < |bs| && bs[i].circle.Some? ==> cs[i].value == bs[i].circle.value.center
  {
    seq(|bs|, i requires 0 <= i < |bs| => match bs[i].circle case Some(c) => Some(c.center) case None => None)
  }

  /** The radius of each result, None where no circle was found. */
  function Radii(bs: seq<Best>): (rs: seq<Option<real>>)
    ensures |rs| == |bs|
    ensures forall i :: 0 <= i < |bs| ==> (rs[i].Some? <==> bs[i].circle.Some?)
    ensures forall i :: 0 <= i < |bs| && bs[i].circle.Some? ==> rs[i].value == bs[i].circle.value.radius
  {
    seq(|bs|, i requires 0 <= i < |bs| => match bs[i].circle case Some(c) => Some(c.radius) case None => None)
  }

  /**
   * Every recorded result is 0 with no circle, or a percentage in [0.60, 1]
   * with a circle.
   */
  lemma {:induction false} ResultsWellFormed(images: seq<Mat>, n: nat, r: Rect, side: Side, blur: (Mat, Rect) -> Mat,
                                            canny: Mat -> Mat, draws: seq<seq<Draw>>, norm: Point -> real)
    requires n <= |images| && |draws| == |images|
    requires AllRectangular(images) && RoiInsideAll(r, images) && BlursRoi(blur) && KeepsSize(canny)
    ensures forall i :: 0 <= i < n ==> WellFormed(Results(images, n, r, side, blur, canny, draws, norm)[i])
  {
    forall i | 0 <= i < n
      ensures WellFormed(Results(images, n, r, side, blur, canny, draws, norm)[i])
    {
      var edge := canny(blur(images[i], r));
      SelectWellFormed(GridScan(ZoneFilled(edge, r.height, r.width, CenterZone(side, r.height, r.width))), draws[i], norm);
    }
  }

  /** One side's members: its ROI and its inlier percentage, centre and radius vectors. */
  datatype SideRecord = SideRecord(roi: Rect, inlierPercentage: seq<real>, center: seq<Option<Point>>,
                                   radius: seq<Option<real>>)

  /** The three vectors of a side have one entry per measurement. */
  predicate Consistent(r: SideRecord) {
    |r.inlierPercentage| == |r.center| == |r.radius|
  }

  /**
   * A side after measuring images with results bs under ROI roi: the ROI is
   * roi once at least one image was measured, and each vector is its old
   * contents followed by one entry per result.
   */
  function Appended(r: SideRecord, roi: Rect, bs: seq<Best>): SideRecord {
    SideRecord(if |bs| > 0 then roi else r.roi,
               r.inlierPercentage + Percentages(bs), r.center + Centers(bs), r.radius + Radii(bs))
  }

  /** Measuring keeps a side's vectors in step, each growing by one entry per result. */
  lemma AppendedConsistent(r: SideRecord, roi: Rect, bs: seq<Best>)
    requires Consistent(r)
    ensures Consistent(Appended(r, roi, bs))
    ensures |Appended(r, roi, bs).inlierPercentage| == |r.inlierPercentage| + |bs|
  {
  }

  /** Recording results one at a time is recording them all at once. */
  lemma AppendedStep(r: SideRecord, roi: Rect, bs: seq<Best>, b: Best)
    ensures Appended(Appended(r, roi, bs), roi, [b]) == Appended(r, roi, bs + [b])
  {
    assert Percentages(bs + [b]) == Percentages(bs) + Percentages([b]);
    assert Centers(bs + [b]) == Centers(bs) + Centers([b]);
    assert Radii(bs + [b]) == Radii(bs) + Radii([b]);
  }

  /** The other semicircle. */
  function Other(side: Side): Side {
    match side
    case Left => Right
    case Right => Left
  }

  /**
   * The image loop of Semicircle on one side's members and the stored images:
   * for every image, the ROI is assigned, the ROI blurred in place, the image
   * measured, and one entry pushed onto each vector.
   */
  method MeasureSide(images: seq<Mat>, record: SideRecord, roi: Rect, side: Side, iterationTimes: nat,
                     blur: (Mat, Rect) -> Mat, canny: Mat -> Mat, draws: seq<seq<Draw>>, norm: Point -> real)
    returns (r: SideRecord, imgs: seq<Mat>)
    requires AllRectangular(images) && RoiInsideAll(roi, images) && BlursRoi(blur) && KeepsSize(canny)
    requires |draws| == |images|
    requires forall i :: 0 <= i < |draws| ==> |draws[i]| == iterationTimes
    ensures r == Appended(record, roi, Results(images, |images|, roi, side, blur, canny, draws, norm))
    ensures imgs == Blurred(images, roi, blur)
  {
    r := record;
    imgs := images;
    ghost var bs: seq<Best> := [];
    var i := 0;
    while i < |images|
      invariant 0 <= i <= |images| && |imgs| == |images|
      invariant forall k :: 0 <= k < i ==> imgs[k] == Blurred(images, roi, blur)[k]
      invariant forall k :: i <= k < |images| ==> imgs[k] == images[k]
      invariant bs == Results(images, i, roi, side, blur, canny, draws, norm)
      invariant r == Appended(record, roi, bs)
    {
      r := r.(roi := roi);
      var imgRoi, best := MeasureImage(imgs[i], r.roi, side, iterationTimes, blur, canny, draws[i], norm);
      imgs := imgs[i := Paste(imgs[i], r.roi, imgRoi)];
      r := r.(inlierPercentage := r.inlierPercentage + [best.inlierPercentage],
              center := r.center + Centers([best]),
              radius := r.radius + Radii([best]));
      AppendedStep(record, roi, bs, best);
      ResultsSnoc(images, i, roi, side, blur, canny, draws, norm);
      bs := bs + [best];
      i := i + 1;
    }
  }

  class Measurement {
    /** imgs_src_ */
    var images: seq<Mat>
    /** imgs_total_num */
    var imgsTotalNum: nat

    var leftRoi: Rect
    var leftInlierPercentage: seq<real>
    var leftCenter: seq<Option<Point>>
    var leftRadius: seq<Option<real>>

    var rightRoi: Rect
    var rightInlierPercentage: seq<real>
    var rightCenter: seq<Option<Point>>
    var rightRadius: seq<Option<real>>

    /** The members of one side. */
    function Record(side: Side): SideRecord
      reads this
    {
      match side
      case Left => SideRecord(leftRoi, leftInlierPercentage, leftCenter, leftRadius)
      case Right => SideRecord(rightRoi, rightInlierPercentage, rightCenter, rightRadius)
    }

    /** The image count matches the images, and each side's vectors are in step. */
    predicate Valid()
      reads this
    {
      imgsTotalNum == |images| && Consistent(Record(Left)) && Consistent(Record(Right))
    }

    /** Takes the loaded images; no measurement is recorded yet and both ROIs are empty. */
    constructor (imgs: seq<Mat>)
      ensures Valid()
      ensures images == imgs && imgsTotalNum == |imgs|
      ensures Record(Left) == SideRecord(Rect(0, 0, 0, 0), [], [], [])
      ensures Record(Right) == SideRecord(Rect(0, 0, 0, 0), [], [], [])
    {
      images := imgs;
      imgsTotalNum := |imgs|;
      leftRoi, rightRoi := Rect(0, 0, 0, 0), Rect(0, 0, 0, 0);
      leftInlierPercentage, leftCenter, leftRadius := [], [], [];
      rightInlierPercentage, rightCenter, rightRadius := [], [], [];
    }

    /** Stores r as the members of the given side. */
    method SetRecord(side: Side, r: SideRecord)
      requires Valid() && Consistent(r)
      modifies this
      ensures Valid()
      ensures images == old(images) && imgsTotalNum == old(imgsTotalNum)
      ensures Record(side) == r
      ensures Record(Other(side)) == old(Record(Other(side)))
    {
      if side == Left {
        leftRoi, leftInlierPercentage, leftCenter, leftRadius := r.roi, r.inlierPercentage, r.center, r.radius;
      } else {
        rightRoi, rightInlierPercentage, rightCenter, rightRadius := r.roi, r.inlierPercentage, r.center, r.radius;
      }
    }

    /**
     * Measures one semicircle in every image: the chosen side's ROI becomes
     * (x, y, width, height) when there is at least one image, the ROI of
     * every stored image is replaced by its blur, and that side's three
     * vectors grow by one entry per image, in image order. The other side
     * is untouched.
     */
    method Semicircle(x: int := 520, y: int := 980, width: int := 220, height: int := 400,
                      side: Side := Left, iterationTimes: nat := 100,
                      blur: (Mat, Rect) -> Mat, canny: Mat -> Mat, draws: seq<seq<Draw>>, norm: Point -> real)
      requires Valid() && AllRectangular(images)
      requires RoiInsideAll(Rect(x, y, width, height), images) && BlursRoi(blur) && KeepsSize(canny)
      requires |draws| == imgsTotalNum
      requires forall i :: 0 <= i < |draws| ==> |draws[i]| == iterationTimes
      modifies this
      ensures Valid() && AllRectangular(images)
      ensures images == Blurred(old(images), Rect(x, y, width, height), blur) && imgsTotalNum == old(imgsTotalNum)
      ensures Record(side)
           == Appended(old(Record(side)), Rect(x, y, width, height),
                       Results(old(images), imgsTotalNum, Rect(x, y, width, height), side, blur, canny, draws, norm))
      ensures Record(Other(side)) == old(Record(Other(side)))
    {
      ghost var bs := Results(images, imgsTotalNum, Rect(x, y, width, height), side, blur, canny, draws, norm);
      var r, imgs := MeasureSide(images, Record(side), Rect(x, y, width, height), side, iterationTimes,
                                 blur, canny, draws, norm);
      AppendedConsistent(Record(side), Rect(x, y, width, height), bs);
      SetRecord(side, r);
      images := imgs;
    }
  }
}
