# cellpose-sam-exam, modelled in Dafny

The repository holds two scripts built around the Cellpose segmentation model.

**The examination pipeline** (`cellpose_exam_pipeline.py`) reads a sorted list of microscopy frames and splits them in time into three stages, *inicio*, *medio* and *final*. It segments each frame and classifies every labelled object into one of four categories:

| category | meaning | BGR colour |
|---|---|---|
| `Circular_viva` | live round cell | green |
| `Fija` | fixed cell | yellow |
| `Circular_muerta` | dead round cell | red |
| `Fragmento` | fragment | magenta |

The classification uses the object's area, circularity and mean intensity, together with the frame's stage. The pipeline paints each object in its category's colour into three kinds of canvas:

- a combined mask;
- an overlay on the frame;
- one mask per category.

It then appends one summary row per frame. The row holds each category's count, its average area and its average brightness.

**The segmentation script** (`cellpose_sam.py`) computes four uncategorised metrics from each frame's label mask:

- the number of cells;
- the areas per label;
- the mean area;
- the mean foreground brightness.

It saves each JPG image's mask as `mask_{idx:03}.png`, builds a video from those files, and computes the same metrics for every frame of an AVI stream.

The model takes the segmentation output as given:

- For the pipeline, each frame's regions are records of area, perimeter, mean intensity and pixel coordinates.
- For the script, each frame is a label mask with its intensity image.

The model covers everything the scripts compute from those inputs, except what is listed under "## Left out".

Modules:

- `Categories` (categories.dfy): the category table, the stages and the colours.
- `Classifier` (classifier.dfy): the classifier `clasificar_objeto`.
- `Stages` (stages.dfy): the stage list.
- `Painting` (painting.dfy): what each canvas holds, pixel by pixel, once a frame's regions are painted in order. Later regions overwrite earlier ones.
- `Aggregation` (aggregation.dfy): the per-category counters, sums and averages.
- `ExamPipeline` (exam_pipeline.dfy): the class `ExamRun`. It holds the appended `summary` list and the in-place painting on `array2` canvases.
- `LabelMetrics` (label_metrics.dfy): `np.unique`, the areas list, `num_cells`, `avg_area` and `avg_brightness` over a label mask flattened row by row.
- `MaskNames` (mask_names.dfy): the `mask_{idx:03}.png` scheme, with a parser as its inverse.
- `SamPipeline` (sam_pipeline.dfy): the class `SamRun`. It runs the JPG pass, which appends rows, saves masks by name and reads them back in index order, and the AVI pass, whose frame counter rises by one per frame read.

`num_cells` is modelled as written: the number of distinct mask values minus one. The model proves that this equals the number of objects only when background pixels occur, and is one less otherwise (`NumCellsAgainstAreas`, `NoBackgroundUndercounts`).

## Model

| member | source | states |
|---|---|---|
| Categories.IndexOf | cellpose_exam_pipeline.py:20-25 | every category has a position among the table's four keys |
| Categories.ColorOf | cellpose_exam_pipeline.py:20-25 | no category is painted black, so painted pixels differ from the zeroed background |
| Categories.CategoryOfColor | cellpose_exam_pipeline.py:20-25 | a colour read back as a category is that category's colour in the table |
| Categories.TableHoldsEveryCategoryOnce | cellpose_exam_pipeline.py:20-25 | every category is a key of the table, at exactly one position |
| Categories.ColorRoundTrip | cellpose_exam_pipeline.py:20-25 | each category's colour reads back as that category |
| Categories.TableIsInjective | cellpose_exam_pipeline.py:20-25 | distinct categories have distinct colours and distinct keys |
| Categories.BlackIsNoCategory | cellpose_exam_pipeline.py:97-98 | black, the value of a zeroed canvas, is no category's colour and reads back as no category |
| Classifier.SafePerimeter | cellpose_exam_pipeline.py:34 | the perimeter used is always positive: the region's own when positive, else 1 |
| Classifier.Circularity | cellpose_exam_pipeline.py:34-35 | non-negative, and multiplied twice by the perimeter used it gives back 4·pi·area |
| Classifier.LooksDead | cellpose_exam_pipeline.py:47 | holds only for a region of positive area with mean intensity below 100 |
| Classifier.Classify | cellpose_exam_pipeline.py:31-50 | total over the four categories, with an iff for each. `Fragmento` iff area < 50. `Circular_viva` iff area >= 50 at *inicio*. `Circular_muerta` iff area >= 50 at *final* with circularity > 0.8 and mean intensity < 100. `Fija` in every other large case |
| Classifier.ClassifyIgnoresCoords | cellpose_exam_pipeline.py:31-50 | the category depends only on area, perimeter, mean intensity and stage, never on pixel positions |
| Classifier.RoundDarkLateRegionIsDead | cellpose_exam_pipeline.py:33-48 | a round (area 500, perimeter 79.5), dark (mean 50) region in the final stage is a dead round cell |
| Classifier.ZeroPerimeterIsRound | cellpose_exam_pipeline.py:34-35 | with a non-positive perimeter the circularity is 4·pi·area, so any large region passes the 0.8 threshold |
| Stages.FirstBoundary | cellpose_exam_pipeline.py:58 | int(n*0.33): the largest b with 100b <= 33n |
| Stages.SecondBoundary | cellpose_exam_pipeline.py:58 | int(n*0.66): the largest b with 100b <= 66n |
| Stages.StageAt | cellpose_exam_pipeline.py:60-66 | frame i of n is *inicio* iff 100i <= 33n, *medio* iff 33n < 100i <= 66n, and *final* iff 66n < 100i |
| Stages.AssignStages | cellpose_exam_pipeline.py:57-66 | the list has n stages. Index i is *inicio* iff i <= n*33/100, *medio* iff n*33/100 < i <= n*66/100, and *final* otherwise |
| Stages.BoundariesOrdered | cellpose_exam_pipeline.py:58 | the first boundary is at most the second, and the second is below n |
| Stages.StagesNonDecreasing | cellpose_exam_pipeline.py:60-66 | a later frame is never in an earlier stage |
| Stages.StagesAllOccur | cellpose_exam_pipeline.py:60-66 | frame 0 is *inicio*; with three or more frames, all three stages occur |
| Painting.CoverOf | cellpose_exam_pipeline.py:109-121 | a category found for a pixel has a region covering it; when none is found, no region of any category covers it |
| Painting.CoverOfFindsLastCover | cellpose_exam_pipeline.py:109-121 | a pixel has no cover iff no region contains it. Otherwise the cover is the category of a region containing it after which no region contains it (the last one painted) |
| Painting.CoveredByMeansSomeRegion | cellpose_exam_pipeline.py:118 | a category's mask is marked at a pixel iff some region of that category contains the pixel |
| Painting.CombinedPixel | cellpose_exam_pipeline.py:114-115 | a combined-mask pixel reads back as the category of the last region covering it, and is black exactly when no region covers it |
| Painting.OverlayPixel | cellpose_exam_pipeline.py:120-121 | an overlay pixel keeps the source pixel where no region covers it; elsewhere it reads back as the category of the last region covering it |
| Painting.ClassPixel | cellpose_exam_pipeline.py:117-118 | a pixel of category c's mask is black or c's colour, and reads back as c exactly when a region of category c covers it |
| Painting.OfCategory | cellpose_exam_pipeline.py:110-118 | the regions selected for a category's mask all have that category, and there are no more of them than regions |
| Painting.OfCategoryStep | cellpose_exam_pipeline.py:109-118 | one more region joins the end of the selection iff it has category c |
| Painting.OfCategoryCounts | cellpose_exam_pipeline.py:109-118 | each region of category c is selected as often as it occurs, and no other region is; so a region is selected iff it occurs and has category c |
| Painting.PositionsOf | cellpose_exam_pipeline.py:109-110 | strictly increasing positions within the regions, holding exactly the positions of the regions of category c |
| Painting.PositionsStep | cellpose_exam_pipeline.py:109-110 | one more region adds its position at the end iff it has category c |
| Painting.OfCategoryIsSubsequence | cellpose_exam_pipeline.py:109-118 | the selection keeps the regions' order: its k-th region is the region at the k-th position of category c |
| Painting.Paint | cellpose_exam_pipeline.py:115-121 | the fancy-indexed assignment: the listed positions get the colour, all other pixels keep their value |
| Painting.CombinedStep | cellpose_exam_pipeline.py:115 | painting one more region sets its pixels to its category's colour and keeps the rest of the combined mask |
| Painting.OverlayStep | cellpose_exam_pipeline.py:121 | the same for the overlay |
| Painting.ClassStep | cellpose_exam_pipeline.py:118 | painting one more region changes category c's mask only if the region is of category c |
| Painting.UncoveredPixelUntouched | cellpose_exam_pipeline.py:96-121 | a pixel in no region stays black in the combined mask and in every category mask, and keeps the source pixel in the overlay |
| Painting.CombinedPixelReadsBack | cellpose_exam_pipeline.py:114-115 | a combined-mask pixel is non-black iff some region contains it |
| Painting.DisjointRegionsKeepOwnColor | cellpose_exam_pipeline.py:114-118 | with pairwise disjoint regions, every region's pixels carry its own category's colour in the combined mask and in its category's mask |
| Painting.ClassPixelOnlyFromOwnCategory | cellpose_exam_pipeline.py:118 | a category's mask is the same as if only that category's regions had been painted |
| Aggregation.Categorize | cellpose_exam_pipeline.py:109-110 | one category per region, in region order, each the classifier's |
| Aggregation.CountOf | cellpose_exam_pipeline.py:124 | a category never counts more regions than the frame has |
| Aggregation.Average | cellpose_exam_pipeline.py:129-133 | with a positive count the average times the count is the sum; with count 0 the entry is left as it is |
| Aggregation.InitialStats | cellpose_exam_pipeline.py:103-106 | every category of the table gets count, area and brightness 0, and there is no other key |
| Aggregation.AverageStats | cellpose_exam_pipeline.py:129-133 | every category's sums are averaged over its count, and a category with count 0 is left unchanged |
| Aggregation.CountsPartitionRegions | cellpose_exam_pipeline.py:109-124 | the four counts add up to the number of regions |
| Aggregation.CountIsMultiplicity | cellpose_exam_pipeline.py:109-124 | a category's count is how often it occurs among the regions' categories |
| Aggregation.CountIsSizeOfCategory | cellpose_exam_pipeline.py:118-124 | a category's count is the number of regions painted into its mask |
| Aggregation.FragmentCountIgnoresStage | cellpose_exam_pipeline.py:39-40 | the fragment count is the same at every stage |
| Aggregation.NoDeadBeforeFinal | cellpose_exam_pipeline.py:42-45 | before the final stage nothing is counted as a dead round cell |
| Aggregation.ExpectedRowAt | cellpose_exam_pipeline.py:101-106 | a frame's row carries its file name and an entry for every category |
| Aggregation.FinalStats | cellpose_exam_pipeline.py:128-133 | the entry's count is the category's count. A category with count 0 keeps zero averages; otherwise each average times the count is that category's sum of areas (or mean intensities) |
| Aggregation.SumsBounded | cellpose_exam_pipeline.py:109-126 | the area sum is non-negative. It is at least 50 per counted region for a cell category and at most 49 per fragment. The dead cells' intensity sum is below 100 per counted region |
| Aggregation.FinalStatsBounded | cellpose_exam_pipeline.py:128-133 | a cell category's average area is at least 50, the fragments' lies in [0, 50), and the dead cells' average brightness is below 100 |
| Aggregation.FragmentAreaBounded | cellpose_exam_pipeline.py:128-133 | with at least one fragment, the fragments' average area lies in [0, 49] |
| Aggregation.CellAreaBounded | cellpose_exam_pipeline.py:128-133 | a cell category with at least one region averages at least 50 pixels |
| Aggregation.DeadBrightnessBounded | cellpose_exam_pipeline.py:128-133 | with at least one dead round cell, their average brightness is below 100 |
| Aggregation.ExpectedRow | cellpose_exam_pipeline.py:101-135 | a frame's row carries its file name and exactly the table's categories, each counting at most the frame's regions |
| Aggregation.Tally | cellpose_exam_pipeline.py:123-126 | one region keeps the keys, adds 1 to its own category's count and leaves every other category's entries unchanged |
| Aggregation.RunningStatsStep | cellpose_exam_pipeline.py:124-126 | counting a region adds 1, its area and its mean intensity to its own category only |
| Aggregation.TallyStep | cellpose_exam_pipeline.py:123-126 | the in-loop update keeps every key and keeps each entry equal to the counts and sums of the regions seen so far |
| Aggregation.AveragedRowIsExpected | cellpose_exam_pipeline.py:128-135 | averaging the final sums gives exactly the frame's expected row |
| Aggregation.AveragedRunningIsFinal | cellpose_exam_pipeline.py:128-133 | averaging a category's sums gives its final entries |
| Aggregation.EmptyCategoryHasZeroSums | cellpose_exam_pipeline.py:104-126 | a category with no region has zero sums |
| Aggregation.StartFrameExample | cellpose_exam_pipeline.py:39-43 | areas 10, 80 and 200 at *inicio* give 1 fragment, 2 live round cells and 0 fixed cells |
| ExamPipeline.NewCanvas | cellpose_exam_pipeline.py:97 | a fresh height×width canvas, all black |
| ExamPipeline.NewClassCanvases | cellpose_exam_pipeline.py:98 | one fresh, distinct, all-black canvas per category of the table |
| ExamPipeline.ExamRows | cellpose_exam_pipeline.py:86-135 | one expected row per frame, in frame order, each with the frame's name and exactly the table's categories |
| ExamPipeline.ExamRowEntries | cellpose_exam_pipeline.py:101-135 | frame k's entry for each category is the final count and averages of the frame's regions, classified at stage StageAt(k, n) |
| ExamPipeline.ExamRun.constructor | cellpose_exam_pipeline.py:84 | the summary starts empty |
| ExamPipeline.ExamRun.RunExam | cellpose_exam_pipeline.py:53-135 | with no frame the run fails (frame 0 is read for the size) and appends nothing. Otherwise the summary gains exactly one row per frame, in frame order, each the frame's expected row at stage StageAt(k, n). Every frame is painted on its own overlay canvas |
| ExamPipeline.ExamRun.ProcessFrame | cellpose_exam_pipeline.py:96-135 | appends exactly the frame's expected row and returns fresh masks. The combined mask and each category mask hold, pixel by pixel, what the painting functions give; the overlay holds the painted regions over its old pixels |
| ExamPipeline.ExamRun.RenderFrame | cellpose_exam_pipeline.py:96-126 | fresh masks painted with all regions, plus counts and sums per category |
| ExamPipeline.ExamRun.PaintAndCount | cellpose_exam_pipeline.py:109-126 | after the region loop, every canvas shows all regions painted in order and the counters hold each category's count and sums |
| ExamPipeline.ExamRun.PaintRegion | cellpose_exam_pipeline.py:110-121 | one region painted into the combined mask, its category's mask and the overlay |
| ExamPipeline.ExamRun.PaintCombined | cellpose_exam_pipeline.py:115 | the combined mask afterwards shows one more region |
| ExamPipeline.ExamRun.PaintOverlay | cellpose_exam_pipeline.py:121 | the overlay afterwards shows one more region over the source pixels |
| ExamPipeline.ExamRun.PaintClass | cellpose_exam_pipeline.py:118 | every category mask afterwards shows one more region; only the region's own category's mask changes |
| LabelMetrics.Insert | cellpose_sam.py:39-40 | keeps the labels strictly increasing, adds exactly the new label and grows by at most one |
| LabelMetrics.Unique | cellpose_sam.py:39-40 | np.unique: strictly increasing, holding exactly the values of the mask, and no longer than the mask |
| LabelMetrics.NonZero | cellpose_sam.py:40 | exactly the labels other than 0 |
| LabelMetrics.CountsOf | cellpose_sam.py:40 | one count per label |
| LabelMetrics.PixelCountPositive | cellpose_sam.py:40 | np.sum(masks == i) is the number of times i occurs in the mask, so at least 1 iff i occurs |
| LabelMetrics.ForegroundCountIsNonZero | cellpose_sam.py:42 | np.sum(masks > 0) counts every pixel except those labelled 0 |
| LabelMetrics.DistinctValuesCounted | cellpose_sam.py:39 | a strictly increasing sequence has as many distinct values as entries (the size of np.unique) |
| LabelMetrics.AreasAtLeastOne | cellpose_sam.py:40 | every entry of the areas list is at least one pixel |
| LabelMetrics.AreasOnePerLabel | cellpose_sam.py:40 | the areas list has one entry per distinct non-zero label, in increasing label order; each entry is that label's pixel count, so at least 1 |
| LabelMetrics.NonZeroDropsLeadingZero | cellpose_sam.py:40 | in sorted labels only the first can be 0, so only it is dropped |
| LabelMetrics.NonZeroKeepsOrder | cellpose_sam.py:40 | the non-zero labels stay strictly increasing, and one fewer exactly when 0 was there |
| LabelMetrics.CountInAddLabel | cellpose_sam.py:40 | adding a new label to a set adds exactly its pixels to the count |
| LabelMetrics.SumOfCountsIsCountIn | cellpose_sam.py:40 | summing the pixel counts of distinct labels counts the pixels carrying any of them |
| LabelMetrics.CountInEmpty | cellpose_sam.py:40 | no pixel carries a label of the empty set |
| LabelMetrics.CountInForeground | cellpose_sam.py:40-42 | counting the pixels carrying a non-zero label of the mask counts the pixels with masks > 0 |
| LabelMetrics.AreasSumToForeground | cellpose_sam.py:40 | the areas add up to the number of pixels with masks > 0 |
| LabelMetrics.NumCells | cellpose_sam.py:39 | num_cells lies between -1 and the number of pixels minus 1, and is -1 exactly for an empty mask |
| LabelMetrics.NumCellsAgainstAreas | cellpose_sam.py:39-40 | num_cells is the number of distinct values minus 1. It equals the number of areas when 0 occurs, and is one less otherwise |
| LabelMetrics.NoBackgroundUndercounts | cellpose_sam.py:39-40 | a mask of two objects with no background has two areas but num_cells 1 |
| LabelMetrics.AvgAreaIsMean | cellpose_sam.py:41 | avg_area is 0 with no object; otherwise it times the number of objects is the number of foreground pixels, i.e. it is the mean area |
| LabelMetrics.AvgAreaBounded | cellpose_sam.py:41 | avg_area lies between 0 and the number of pixels, and is at least 1 when there is an object |
| LabelMetrics.AreasSumAtLeastCount | cellpose_sam.py:40-41 | areas of at least one pixel each add up to at least their number |
| LabelMetrics.ForegroundSumBounded | cellpose_sam.py:42 | the foreground intensities sum to at most 255 per foreground pixel |
| LabelMetrics.AvgBrightnessIsPixelMean | cellpose_sam.py:42 | avg_brightness is 0 without foreground. Otherwise it times the number of foreground pixels is their intensity sum (a per-pixel mean), and it lies in 0..255 |
| LabelMetrics.BrightnessWeightsPixels | cellpose_sam.py:42 | a 1-pixel object of intensity 0 and a 3-pixel object of intensity 200 give 150 (per pixel), not 100 (per cell) |
| MaskNames.Digits | cellpose_sam.py:35 | the index printed in decimal: at least one digit, with a leading 0 only for index 0 |
| MaskNames.Padded | cellpose_sam.py:35 | the {idx:03} field: at least three characters, all decimal digits |
| MaskNames.MaskFileName | cellpose_sam.py:35 | the name starts with mask_ and ends with .png, with at least three decimal digits between them |
| MaskNames.DigitsDenote | cellpose_sam.py:35 | the printed digits of an index denote that index |
| MaskNames.LeadingZerosIgnored | cellpose_sam.py:35 | zeros in front of the digits do not change the value |
| MaskNames.ZerosDenoteZero | cellpose_sam.py:35 | a string of zeros denotes 0 |
| MaskNames.PaddedDenotes | cellpose_sam.py:35 | the padded index denotes the index |
| MaskNames.MaskFileNameRoundTrip | cellpose_sam.py:35 | parsing mask_{idx:03}.png gives back idx |
| MaskNames.MaskFileNamesDistinct | cellpose_sam.py:35 | distinct indices give distinct file names, so no saved mask overwrites another |
| MaskNames.WideIndexNotPadded | cellpose_sam.py:35 | an index of three or more digits is printed without zeros in front |
| MaskNames.MaskFileNameExample | cellpose_sam.py:35 | index 7 is saved as mask_007.png |
| SamPipeline.RowFor | cellpose_sam.py:39-44 | the row carries the index. Its cell count is -1 only for an empty image, its average area lies within the image size, and its average brightness lies in 0..255 |
| SamPipeline.Rows | cellpose_sam.py:44 | one row per frame, and row k carries frame index k |
| SamPipeline.RowsAreMeans | cellpose_sam.py:41-44 | each row's average area is the mean object size (0 with no object) and its brightness lies in 0..255 |
| SamPipeline.SavedMasks | cellpose_sam.py:35-36 | after a pass, each frame's mask is stored under its own name |
| SamPipeline.SavedNamesAreFrameIndices | cellpose_sam.py:35 | every saved name is mask_{k:03}.png for the index k of a frame of the pass |
| SamPipeline.RowsStep | cellpose_sam.py:44 | one more frame appends its row at the end |
| SamPipeline.SavedMasksStep | cellpose_sam.py:35-36 | one more frame saves its mask under its own name on top of the earlier files |
| SamPipeline.SamRun.constructor | cellpose_sam.py:24 | no rows and no saved masks at the start |
| SamPipeline.SamRun.ProcessJpgs | cellpose_sam.py:26-44 | the JPG rows gain one row per image in order, with index k on row k; each image's mask is saved under mask_{k:03}.png; the AVI rows are unchanged |
| SamPipeline.SamRun.ReadBackMasks | cellpose_sam.py:58-61 | reads back the files mask_000.png .. in index order |
| SamPipeline.SamRun.RunJpgs | cellpose_sam.py:26-61 | the JPG rows gain one row per image and every image's mask is saved under its own name, as in ProcessJpgs. With no image the run then fails when building the video (no frame size). Otherwise the video shows every image's own mask in image order, because each name read back is the one its mask was saved under |
| SamPipeline.SamRun.ProcessAvi | cellpose_sam.py:67-102 | the AVI rows gain exactly one row per frame read, with frame_idx k on row k; the capture is read until it runs out, and frame_idx rises by one per frame |

## Left out

- Cellpose itself: model loading, `model.eval` and the GPU choice. The model takes its output as input: region records for the pipeline, label masks for the script.
- skimage `label` and `regionprops`. Regions are given records of area, perimeter, mean intensity and coordinates.
- All file and video I/O:
  - `imread`, `imsave`, `glob` and `os.listdir`;
  - the `VideoWriter` and `VideoCapture` objects and their release;
  - the CSV files, `tqdm` and the prints.

  The saved mask files are a name-to-mask map, and reading a capture is taking the next frame of a sequence.
- `cv2.cvtColor`, `cv2.addWeighted` and `io.color_labels`, which are library calls. The overlay's initial pixels are an input canvas. A saved mask is the label mask itself, not its colouring.
- Floating point. Circularity, pi, areas and averages are reals, and `int(n*0.33)` and `int(n*0.66)` are the floors of 33n/100 and 66n/100.
- Intensity in the script is one channel. A three-channel JPG would be averaged over all channels by numpy, which the model does not capture.
- The pipeline's dictionary keys (`"<cat>_count"` and so on) are a map from category to a record of three entries. The CSV column order is not modelled.
- ExamPipeline.ExamRun.RunExam: requires every frame to have the size of frame 0. The source would fail or write mismatched video frames otherwise, and that case is not modelled.
- ExamPipeline.ExamRun.RunExam: requires the frames' overlay canvases to be pairwise distinct. In the source each overlay is a new array converted from its own frame, so this holds there.
- ExamPipeline.ExamRun.RunExam: states only the summary. The masks and overlays of each frame are stated by ProcessFrame, and their writing to the videos is left out.
- SamPipeline.SamRun.ProcessAvi: the output video writer, created on the first frame, is left out with the rest of video I/O.
