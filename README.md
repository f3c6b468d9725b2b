# RANSAC semicircle measurement

This project models the measuring core of a machine-vision program, in Dafny.
The program finds the two semicircular arcs of a part in a batch of grayscale
images. For each image and each side it:

1. takes a rectangular region of interest (ROI) and blurs it;
2. extracts its edges and blanks the half of the central band that faces the
   part's interior;
3. samples the remaining edge pixels on a grid of stride 5;
4. fits circles through random triples of samples, keeping the circle whose
   inlier share is highest and at least 0.60;
5. appends that circle's inlier percentage, centre and radius to the side's
   three vectors.

Modules, following the source files:

- `Options`: the `Option` type. It stands for "no circle found". In that case
  the source pushes the default centre (0, 0) and an uninitialised radius.
- `Geometry`: `CircleFitting` from `include/measurement.h`, the circumcentre
  of three points by the closed-form formula, and its radius.
- `Sampling`: `GetSamplePoints`, the stride-5 grid scan over an `array2` image
  buffer.
- `Consensus`: `CircleVerification`, the fraction of samples within one pixel
  of the circle.
- `Ransac`: the RANSAC loop of `Measurement::Semicircle` as the imperative
  method `RansacBestCircle`. It is proved equal to the functional reference
  `Select`, and the search properties are lemmas about `Select`. The module
  also holds the loop as the source writes it (see Findings).
- `Measurement`: the class `Measurement`, with the source's per-side members
  (ROI, inlier-percentage vector, centre vector, radius vector), its
  constructor and `Semicircle`.

`Semicircle` writes the blurred ROI back into the stored image, because
`cv::GaussianBlur` runs in place on the ROI view. The model does the same.

Abstractions used throughout:

- `cv::norm`/`sqrt` is a parameter `norm`. The lemmas that need it assume
  `IsEuclidean(norm)`.
- `rand()` becomes an explicit sequence of `Draw` triples, one per iteration.
  The indices are the draws modulo the number of samples, as in the source.
- The Gaussian blur is an abstract `blur` of an image and its ROI, giving an
  image the size of the ROI.
- Canny is an abstract `canny` that keeps the image size.

## Model

| member | source | states |
|---|---|---|
| Geometry.CircleFitting | include/measurement.h:27-40 | No circle exactly when the three points are collinear; otherwise the centre is equidistant from all three points and the radius is the norm of centre minus p1 |
| Geometry.Denominator | include/measurement.h:36-38 | The divisor 2·(x1(y2 − y3) − y1(x2 − x3) + x2·y3 − x3·y2) shared by both centre coordinates; DenominatorZeroIffCollinear characterises its zeros |
| Geometry.Centre | include/measurement.h:35-38 | The centre formula of the source, each numerator divided by the divisor; CentreEquidistant and CircleFittingRecoversCentre state what it computes |
| Geometry.DenominatorZeroIffCollinear | include/measurement.h:36-38 | The divisor of the centre formula is zero exactly when the three points are collinear |
| Geometry.CentreEquidistant | include/measurement.h:35-38 | The computed centre has equal squared distance to p1, p2 and p3 |
| Geometry.EuclideanRadius | include/measurement.h:39 | With a Euclidean norm, the radius is non-negative and all three points lie on the fitted circle |
| Geometry.CircleFittingRadius | include/measurement.h:27-40 | With a Euclidean norm and non-collinear points, a circle is returned, with non-negative radius, through p1, p2 and p3 |
| Geometry.CircleFittingRecoversCentre | include/measurement.h:27-40 | Any point equidistant from three non-collinear points is the returned centre, so the fit is the unique circumcircle |
| Sampling.GetSamplePoints | src/measurement.cpp:28-40 | Appends to the given vector exactly the grid scan of the image buffer's contents |
| Sampling.GridScan | src/measurement.cpp:30-39 | The samples of an image: rows 0, 5, 10, … outermost, columns 0, 5, 10, … within each, a point for every set pixel; GridScanSound, GridScanComplete and GridScanOrdered characterise it |
| Sampling.GridScanSound | src/measurement.cpp:30-37 | Every sample is the point (x, y) of a set pixel whose coordinates are both multiples of 5 |
| Sampling.GridScanComplete | src/measurement.cpp:30-37 | Every set pixel on the stride-5 grid is sampled |
| Sampling.GridScanMembership | src/measurement.cpp:30-37 | A point is a sample if and only if it is a set grid pixel |
| Sampling.GridScanOrdered | src/measurement.cpp:30-36 | Samples come in strict row-major order, so none repeats |
| Sampling.NoSamplesIffBlank | src/measurement.cpp:30-37 | The sample vector is empty if and only if no grid pixel is set |
| Consensus.CircleVerification | src/measurement.cpp:53-67 | Returns the inlier count divided by the sample count, a value in [0, 1] |
| Consensus.IsInlier | src/measurement.cpp:60-61 | A sample is an inlier when its distance from the centre differs from the radius by less than 1, the test fabs(d − r) < 1.0f; InlierCountIsCardinality, AllInliersIff and NoInliersIff are stated with it |
| Consensus.InlierCount | src/measurement.cpp:55-65 | The loop's count of samples within one pixel of the circle; InlierCountIsCardinality ties it to the set of inlier positions |
| Consensus.Score | src/measurement.cpp:66 | The count divided by the number of samples; ScoreBounds and ScoreExtremes state its range and its extremes |
| Consensus.InlierCountIsCardinality | src/measurement.cpp:55-65 | The loop's inlier count is the number of sample positions within one pixel of the circle |
| Consensus.InlierCountBound | src/measurement.cpp:55-65 | There are never more inliers than samples |
| Consensus.AllInliersIff | src/measurement.cpp:58-65 | Every sample is an inlier if and only if the count equals the sample count |
| Consensus.NoInliersIff | src/measurement.cpp:58-65 | No sample is an inlier if and only if the count is 0 |
| Consensus.ScoreBounds | src/measurement.cpp:66 | The score lies in [0, 1] |
| Consensus.ScoreExtremes | src/measurement.cpp:58-66 | The score is 1 exactly when every sample is an inlier, and 0 exactly when none is |
| Ransac.Coincide | src/measurement.cpp:177 | Two of the three indices, each a draw modulo the sample count, are equal, so the iteration is skipped |
| Ransac.MinInlierPercentage | src/measurement.cpp:168 | The acceptance threshold min_inlier_percentage, 0.60 |
| Ransac.Trial | src/measurement.cpp:174-181 | An iteration yields nothing if there are no samples, two drawn indices coincide or the drawn points are collinear; otherwise it yields the fitted circle of the drawn points and its score in [0, 1] |
| Ransac.Qualifies | src/measurement.cpp:183 | A trial counts only when it produced a circle scoring at least 0.60; SelectIsMaximum and SelectNoneIff are stated with it |
| Ransac.Initial | src/measurement.cpp:164-166 | The start of the corrected loop: score 0 and no circle, where the source leaves best_radius unset; FewSamplesNoCircle and NoSamplesNoCircle end there |
| Ransac.RansacBestCircle | src/measurement.cpp:164-202 | The loop's final best score and circle are those of the reference selection over the given draws |
| Ransac.Step | src/measurement.cpp:183-189 | A trial never lowers the best score, and a well-formed best stays well formed when the trial's score is at most 1 |
| Ransac.Select | src/measurement.cpp:164-202 | The best after the iterations in order, from score 0 and no circle; SelectWellFormed, SelectIsMaximum, SelectAttained and SelectNoneIff characterise it |
| Ransac.SelectWellFormed | src/measurement.cpp:164-189 | The best score is 0 with no circle, or at least 0.60 and at most 1 with a circle |
| Ransac.SelectMonotone | src/measurement.cpp:183-189 | More iterations never lower the best score |
| Ransac.SelectIsMaximum | src/measurement.cpp:183-189 | Every trial scoring at least 0.60 scores at most the final best |
| Ransac.SelectAttained | src/measurement.cpp:183-189 | A final circle comes from a trial that scored exactly the final best, and no earlier qualifying trial scored as much (the first best wins ties) |
| Ransac.SelectNoneIff | src/measurement.cpp:183-189 | No circle is found exactly when no trial reaches 0.60 |
| Ransac.FewSamplesNoCircle | src/measurement.cpp:174-178 | With fewer than three samples every iteration is skipped and no circle is found |
| Ransac.TrialCountsItsPoints | src/measurement.cpp:180-181 | With a Euclidean norm, the three drawn points are inliers of their own fit, so a completed trial scores at least 3/n |
| Ransac.SelectAsWritten | src/measurement.cpp:164-189 | The loop as the source writes it, carrying best_radius and best_center from an indeterminate radius and the centre (0, 0); AsWrittenAgreement relates it to Select |
| Ransac.StepAsWritten | src/measurement.cpp:185-189 | The update as written: a qualifying, strictly better trial overwrites the score, best_radius and best_center; AsWrittenAgreement relates it to Step |
| Ransac.AsWrittenAgreement | src/measurement.cpp:164-202 | The loop as written gives the reference selection's radius and centre when a circle is found; when none is, it gives the uninitialised starting radius and the centre (0, 0) that cv::Point2f's default constructor sets |
| Ransac.UninitialisedRadiusPushed | src/measurement.cpp:165-166 | With one sample and one iteration, the source pushes the uninitialised starting radius and the centre (0, 0), while the corrected selection reports no circle |
| Ransac.BlankEdgeImageDividesByZero | src/measurement.cpp:174-176 | An edge image with no set grid pixel leaves the sample set empty, and then, with at least one iteration, the as-written loop is undefined |
| Ransac.NoSamplesNoCircle | src/measurement.cpp:164-202 | With no samples, the corrected loop finds no circle and keeps score 0 |
| Measurement.Crop | src/measurement.cpp:133 | Pixel (i, j) of the ROI view is pixel (y + i, x + j) of the image |
| Measurement.Paste | src/measurement.cpp:145 | Writing a patch through the ROI view keeps the image size; CropPaste, PasteCrop and PasteOutside state what the write does |
| Measurement.CropPaste | src/measurement.cpp:145 | After writing a patch through the ROI view, the ROI reads back as that patch |
| Measurement.PasteCrop | src/measurement.cpp:133-145 | Writing the ROI's own pixels back leaves the image unchanged |
| Measurement.PasteOutside | src/measurement.cpp:145 | Writing through the ROI view leaves every pixel outside the ROI unchanged |
| Measurement.CenterZone | src/measurement.cpp:150-155 | The rectangle blanked for each side: the right half of the middle row band for the left semicircle, the left half for the right one; CenterZoneInside and CenterZonesSplitBand state its placement |
| Measurement.ZoneFilled | src/measurement.cpp:151-156 | Painting a zone with 0 keeps the image size; ZoneFilledSamples states which samples survive |
| Measurement.CenterZoneInside | src/measurement.cpp:148-157 | Each centre zone lies inside the edge image |
| Measurement.CenterZonesSplitBand | src/measurement.cpp:150-155 | No pixel is in both zones; a pixel is in one of them if and only if it is in the middle band of rows and in the first 2·(cols/2) columns |
| Measurement.ZoneFilledSamples | src/measurement.cpp:148-162 | After the zone is blanked, a point is a sample if and only if it was one before and lies outside the zone |
| Measurement.NoSampleInCenterZone | src/measurement.cpp:148-162 | No sample lies in the blanked centre zone |
| Measurement.FillCenterZone | src/measurement.cpp:148-157 | The edge buffer's new contents are its old contents with the side's centre zone set to 0 |
| Measurement.MeasureImage | src/measurement.cpp:144-202 | Returns the blurred ROI and the best result for one image (blur, edges, zone, sampling, RANSAC), which is well formed |
| Measurement.ImageResult | src/measurement.cpp:144-202 | The best result for one image: blur the ROI, take its edges, blank the centre zone, sample and select; MeasureImage computes it and ResultsWellFormed shows it well formed |
| Measurement.BlurredImages | src/measurement.cpp:133-145 | After the write-back, each image's ROI holds its blurred pixels and every pixel outside the ROI is unchanged |
| Measurement.Blurred | src/measurement.cpp:145 | The stored images after the write-back of every blurred ROI keep their sizes and still contain the ROI; BlurredImages states their pixels |
| Measurement.ResultsSnoc | src/measurement.cpp:125-216 | The results of n + 1 images are those of n images followed by image n's |
| Measurement.Results | src/measurement.cpp:125-216 | The per-image results of the image loop, in image order; ResultsSnoc and ResultsWellFormed state how it grows and that each entry is well formed |
| Measurement.ResultsWellFormed | src/measurement.cpp:164-214 | Every recorded result is score 0 with no circle, or a score in [0.60, 1] with a circle |
| Measurement.AppendedConsistent | src/measurement.cpp:204-215 | The three vectors of a side stay the same length, each growing by one entry per image |
| Measurement.AppendedStep | src/measurement.cpp:204-215 | Pushing one image's result after those of earlier images is the same as appending all results at once |
| Measurement.Appended | src/measurement.cpp:129-215 | A side after measuring: its ROI is the new one when at least one image was measured, and each vector is its old contents followed by one entry per result; AppendedConsistent and AppendedStep state its properties, and MeasureSide and Semicircle are specified with it |
| Measurement.MeasureSide | src/measurement.cpp:125-216 | After the image loop, the side holds its old vectors followed by one entry per image in image order, its ROI is the new one if there was an image, and every stored image has its ROI blurred |
| Measurement.Measurement.constructor | src/measurement.cpp:76-90 | Stores the images, sets the image count to their number, and starts both sides with no measurements |
| Measurement.Measurement.SetRecord | src/measurement.cpp:129-215 | Given a valid object and a side whose vectors are in step, stores that side's members, keeps the object valid and leaves the images and the other side unchanged |
| Measurement.Measurement.Semicircle | src/measurement.cpp:117-217 | Takes the header's default arguments (520, 980, 220, 400, left, 100); keeps the object valid; the chosen side's ROI and vectors become the old ones extended by the results of every image; the stored images get their ROIs blurred; the other side is untouched |

## Left out

- Directory reading, `cv::imread`, `Save` (the text report and overlay images) and `Line` (empty in the source) are I/O or unimplemented. The constructor takes the loaded images, so file names and directories are not modelled, and neither are the constructor's default directories `"../share/src"` and `"../share/dst"` (include/measurement.h:68-69).
- The debug dump for the image of index 3 (the fourth image) on the left side (src/measurement.cpp:191-199) only writes files.
- Gaussian blur and Canny are abstract functions. Their kernels and thresholds (3x3, sigma 2, 30/70, aperture 3) are not modelled. OpenCV does not isolate a sub-matrix's border, so the blur may read pixels around the ROI; that is why `blur` takes the whole image and the ROI.
- `rand()` is not modelled: the draws are an explicit input, one triple per iteration.
- Floating point (`float` rounding, the value of `0.60f`, NaN and infinity) is not modelled: coordinates and scores are reals.
- Geometry.CircleFitting: with collinear points the source divides by zero and gets a non-finite centre. The model returns no circle instead. In the source's float arithmetic such a circle scores no inliers and is discarded as well.
- Consensus.CircleVerification requires a non-empty sample set. Its only caller runs after an index was drawn modulo the sample count. On an empty set the source computes 0/0.
- The ROI must lie inside every image, which makes a requirement out of the exception `cv::Mat::operator()` throws otherwise.
- `semicircle_type` is the two-valued `Side`. For any other string the source leaves `img_roi` empty; that path is not modelled.
- `iteration_times` is a `nat`. A negative `int` converts to a huge `size_t` in the source; that is not modelled.
- `subpixel_ratio` and its default 0.5 are declared in `include/measurement.h:55,78` but not used by the definition in `src/measurement.cpp`. It is left out.
- Measurement.MeasureSide computes on a value copy of one side's members and of the image sequence; Semicircle stores them after the loop. The final state is the same as the source's in-place updates, but the intermediate states of the object are not modelled.
- Measurement.Measurement.Semicircle assumes that the blur returns an image of the ROI's size and that Canny keeps the size (`BlursRoi`, `KeepsSize`).

Three behaviours of the code that a reader might not expect:

- On an empty sample set the index computation `rand() % sample_pts.size()` divides by zero, before `CircleVerification` could compute 0/0. This is modelled twice. As written, the case is undefined: `SelectAsWritten` requires `AsWrittenDefined`, and `BlankEdgeImageDividesByZero` shows the case arises. Corrected, the main path records no circle (`NoSamplesNoCircle`). See Findings.
- The blur writes into the stored images (modelled as written), so a later call of `Semicircle` with an overlapping ROI works on already-blurred pixels. The measurement vectors themselves are only ever appended to.
- For an odd-width ROI, the zone `Rect(cols/2, rows/4, cols/2, rows/2)` leaves the last column outside the left zone (modelled as written; see `CenterZonesSplitBand`).

## Findings

| source | as written | input that shows it | evidently intended | confidence | as-written member | corrected member |
|---|---|---|---|---|---|---|
| src/measurement.cpp:165-166 | `best_radius` is uninitialised and is pushed, together with the default centre (0, 0), even when no trial reached 0.60 | one sample point and one iteration: the indices coincide, the iteration is skipped, and the pushed radius is indeterminate | record "no circle" for that image | not executed | Ransac.UninitialisedRadiusPushed | Ransac.SelectNoneIff |
| src/measurement.cpp:174-176 | `rand() % sample_pts.size()` with no sample points | an edge image with no set pixel on the stride-5 grid, with `iteration_times` > 0 | report no circle when there is no sample | not executed | Ransac.BlankEdgeImageDividesByZero | Ransac.NoSamplesNoCircle |
