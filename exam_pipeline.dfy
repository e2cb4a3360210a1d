/**
 * The examination pipeline's frame loop: for every frame, classify its
 * regions, paint the combined mask, the overlay and one mask per category,
 * count the regions per category, average their areas and intensities, and
 * append one summary row.
 */
module ExamPipeline {
  import opened Categories
  import opened Classifier
  import opened Stages
  import opened Painting
  import opened Aggregation

  /**
   * One input frame: its file's base name, the regions the feature extractor
   * found in it, and the frame already converted to three channels (the
   * canvas the overlay is painted on).
   */
  datatype FrameInput = FrameInput(name: string, regions: seq<Region>, overlay: Canvas)

  /** Every pixel of the canvas is what the combined mask of these regions holds. */
  ghost predicate ShowsCombined(canvas: Canvas, regions: seq<Region>, stage: Stage)
    reads canvas
  {
    forall i, j :: 0 <= i < canvas.Length0 && 0 <= j < canvas.Length1 ==>
      canvas[i, j] == CombinedPixel(regions, stage, (i, j))
  }

  /** Every pixel of the canvas is what category c's mask of these regions holds. */
  ghost predicate ShowsClass(canvas: Canvas, regions: seq<Region>, stage: Stage, c: Category)
    reads canvas
  {
    forall i, j :: 0 <= i < canvas.Length0 && 0 <= j < canvas.Length1 ==>
      canvas[i, j] == ClassPixel(regions, stage, c, (i, j))
  }

  /** The pixels of a canvas, row by row. */
  ghost function Snapshot(canvas: Canvas): (rows: seq<seq<Color>>)
    reads canvas
    ensures |rows| == canvas.Length0
    ensures forall i :: 0 <= i < canvas.Length0 ==> |rows[i]| == canvas.Length1
    ensures forall i, j :: 0 <= i < canvas.Length0 && 0 <= j < canvas.Length1 ==> rows[i][j] == canvas[i, j]
  {
    seq(canvas.Length0, i requires 0 <= i < canvas.Length0 reads canvas =>
      seq(canvas.Length1, j requires 0 <= j < canvas.Length1 reads canvas => canvas[i, j]))
  }

  /** Every pixel of the canvas is what the overlay of these regions on the source image holds. */
  ghost predicate ShowsOverlay(canvas: Canvas, regions: seq<Region>, stage: Stage, source: seq<seq<Color>>)
    reads canvas
  {
    && |source| == canvas.Length0
    && (forall i :: 0 <= i < |source| ==> |source[i]| == canvas.Length1)
    && forall i, j :: 0 <= i < canvas.Length0 && 0 <= j < canvas.Length1 ==>
         canvas[i, j] == OverlayPixel(regions, stage, (i, j), source[i][j])
  }

  /** The per-category masks: one per category, all distinct height x width canvases. */
  ghost predicate ClassCanvases(classes: map<Category, Canvas>, height: nat, width: nat)
  {
    && classes.Keys == CATEGORY_SET
    && (forall c :: c in classes ==> classes[c].Length0 == height && classes[c].Length1 == width)
    && (forall c1, c2 :: c1 in classes && c2 in classes && c1 != c2 ==> classes[c1] != classes[c2])
  }

  /** Extending a prefix of a sequence by its next element. */
  lemma PrefixStep<T>(s: seq<T>, k: nat)
    requires k < |s|
    ensures s[..k + 1] == s[..k] + [s[k]]
  {
  }

  /** A zeroed height x width canvas (np.zeros). */
  method NewCanvas(height: nat, width: nat) returns (canvas: Canvas)
    ensures fresh(canvas)
    ensures canvas.Length0 == height && canvas.Length1 == width
    ensures forall i, j :: 0 <= i < height && 0 <= j < width ==> canvas[i, j] == BLACK
  {
    canvas := new Color[height, width]((i, j) => BLACK);
  }

  /** One zeroed canvas per category of the table. */
  method NewClassCanvases(height: nat, width: nat) returns (classes: map<Category, Canvas>)
    ensures ClassCanvases(classes, height, width)
    ensures forall c :: c in classes ==> fresh(classes[c])
    ensures forall c, i, j :: c in classes && 0 <= i < height && 0 <= j < width ==> classes[c][i, j] == BLACK
  {
    classes := map[];
    for k := 0 to |ALL_CATEGORIES|
      invariant forall c :: c in classes <==> IndexOf(c) < k
      invariant forall c :: c in classes ==> fresh(classes[c]) && classes[c].Length0 == height && classes[c].Length1 == width
      invariant forall c1, c2 :: c1 in classes && c2 in classes && c1 != c2 ==> classes[c1] != classes[c2]
      invariant forall c, i, j :: c in classes && 0 <= i < height && 0 <= j < width ==> classes[c][i, j] == BLACK
    {
      var canvas := NewCanvas(height, width);
      classes := classes[ALL_CATEGORIES[k] := canvas];
    }
    forall c ensures c in CATEGORY_SET <==> c in classes {
      TableHoldsEveryCategoryOnce(c);
    }
  }

  /** The summary the pipeline should produce: one row per frame, in frame order, with each frame's stage by position. */
  function ExamRows(frames: seq<FrameInput>): (rows: seq<FrameRow>)
    ensures |rows| == |frames|
    ensures forall k :: 0 <= k < |frames| ==> rows[k].frame == frames[k].name && rows[k].stats.Keys == CATEGORY_SET
  {
    seq(|frames|, k requires 0 <= k < |frames| => ExpectedRow(frames[k].name, frames[k].regions, StageAt(k, |frames|)))
  }

  /** Frame k's row holds, for every category, the count and averages of the frame's regions classified at the frame's stage. */
  lemma ExamRowEntries(frames: seq<FrameInput>, k: nat, c: Category)
    requires k < |frames|
    ensures c in ExamRows(frames)[k].stats
    ensures ExamRows(frames)[k].stats[c] == FinalStats(frames[k].regions, StageAt(k, |frames|), c)
  {
    ExpectedRowAt(frames[k].name, frames[k].regions, StageAt(k, |frames|), c);
  }

  /** The canvases the frames are painted on. */
  function Overlays(frames: seq<FrameInput>): set<Canvas>
  {
    set k | 0 <= k < |frames| :: frames[k].overlay
  }

  class ExamRun {
    /** The summary rows appended so far, one per processed frame. */
    var summary: seq<FrameRow>

    constructor ()
      ensures summary == []
    {
      summary := [];
    }

    /**
     * Runs the examination over a sorted list of frames: assigns the stages,
     * takes the image size from the first frame and processes every frame in
     * order. With no frame there is no first image to read the size from, and
     * the run fails before writing any row. Every frame has its own overlay
     * canvas, converted afresh from that frame's image.
     */
    method RunExam(frames: seq<FrameInput>) returns (ok: bool)
      requires forall k :: 0 <= k < |frames| ==>
        frames[k].overlay.Length0 == frames[0].overlay.Length0 && frames[k].overlay.Length1 == frames[0].overlay.Length1
      requires forall k :: 0 <= k < |frames| ==>
        RegionsInBounds(frames[k].regions, frames[k].overlay.Length0, frames[k].overlay.Length1)
      requires forall k, k' :: 0 <= k < k' < |frames| ==> frames[k].overlay != frames[k'].overlay
      modifies this, Overlays(frames)
      ensures ok <==> |frames| > 0
      ensures ok ==> summary == old(summary) + ExamRows(frames)
      ensures !ok ==> summary == old(summary)
    {
      var n := |frames|;
      var stages := AssignStages(n);
      if n == 0 {
        return false;
      }
      var height, width := frames[0].overlay.Length0, frames[0].overlay.Length1;
      ghost var rows := ExamRows(frames);
      for k := 0 to n
        invariant summary == old(summary) + rows[..k]
      {
        var frame := frames[k];
        assert frame.overlay in Overlays(frames);
        assert rows[k] == ExpectedRow(frame.name, frame.regions, stages[k]);
        PrefixStep(rows, k);
        ghost var next := summary + [rows[k]];
        assert next == old(summary) + rows[..k + 1];
        var maskColored, maskClasses := ProcessFrame(frame.name, frame.regions, stages[k], frame.overlay, height, width);
        assert summary == next;
      }
      assert rows[..n] == rows;
      return true;
    }

    /**
     * Processes one frame: paints every region into the combined mask, the
     * overlay and its category's mask, counts and averages per category,
     * and appends the frame's summary row.
     */
    method ProcessFrame(name: string, regions: seq<Region>, stage: Stage, overlay: Canvas, height: nat, width: nat)
      returns (maskColored: Canvas, maskClasses: map<Category, Canvas>)
      requires overlay.Length0 == height && overlay.Length1 == width
      requires RegionsInBounds(regions, height, width)
      modifies this, overlay
      ensures summary == old(summary) + [ExpectedRow(name, regions, stage)]
      ensures fresh(maskColored) && maskColored.Length0 == height && maskColored.Length1 == width
      ensures ClassCanvases(maskClasses, height, width)
      ensures forall c :: c in maskClasses ==> fresh(maskClasses[c])
      ensures ShowsCombined(maskColored, regions, stage)
      ensures forall c :: c in maskClasses ==> ShowsClass(maskClasses[c], regions, stage, c)
      ensures forall i, j :: 0 <= i < height && 0 <= j < width ==>
        overlay[i, j] == OverlayPixel(regions, stage, (i, j), old(overlay[i, j]))
    {
      var stats;
      maskColored, maskClasses, stats := RenderFrame(regions, stage, overlay, height, width);
      var averaged := AverageStats(stats);
      AveragedRowIsExpected(name, regions, stage, stats, averaged);
      summary := summary + [FrameRow(name, averaged)];
    }

    /**
     * Creates the frame's zeroed masks, then paints and counts every region;
     * returns the masks and the per-category counts and sums.
     */
    static method RenderFrame(regions: seq<Region>, stage: Stage, overlay: Canvas, height: nat, width: nat)
      returns (maskColored: Canvas, maskClasses: map<Category, Canvas>, stats: map<Category, CategoryStats>)
      requires overlay.Length0 == height && overlay.Length1 == width
      requires RegionsInBounds(regions, height, width)
      modifies overlay
      ensures fresh(maskColored) && maskColored.Length0 == height && maskColored.Length1 == width
      ensures ClassCanvases(maskClasses, height, width)
      ensures forall c :: c in maskClasses ==> fresh(maskClasses[c])
      ensures ShowsCombined(maskColored, regions, stage)
      ensures forall c :: c in maskClasses ==> ShowsClass(maskClasses[c], regions, stage, c)
      ensures forall i, j :: 0 <= i < height && 0 <= j < width ==>
        overlay[i, j] == OverlayPixel(regions, stage, (i, j), old(overlay[i, j]))
      ensures stats.Keys == CATEGORY_SET
      ensures forall c :: c in stats ==> stats[c] == RunningStats(regions, stage, c)
    {
      maskColored := NewCanvas(height, width);
      maskClasses := NewClassCanvases(height, width);
      stats := InitialStats();
      stats := PaintAndCount(regions, stage, overlay, maskColored, maskClasses, height, width, stats);
    }

    /**
     * The loop over a frame's regions: classify each, paint it into the three
     * kinds of canvas, and add it to its category's count and sums.
     */
    static method PaintAndCount(
      regions: seq<Region>, stage: Stage,
      overlay: Canvas, maskColored: Canvas, maskClasses: map<Category, Canvas>, height: nat, width: nat,
      initial: map<Category, CategoryStats>)
      returns (stats: map<Category, CategoryStats>)
      requires overlay.Length0 == height && overlay.Length1 == width
      requires maskColored.Length0 == height && maskColored.Length1 == width
      requires RegionsInBounds(regions, height, width)
      requires ClassCanvases(maskClasses, height, width)
      requires maskColored != overlay && maskColored !in maskClasses.Values && overlay !in maskClasses.Values
      requires ShowsCombined(maskColored, [], stage)
      requires forall c :: c in maskClasses ==> ShowsClass(maskClasses[c], [], stage, c)
      requires initial.Keys == CATEGORY_SET && forall c :: c in initial ==> initial[c] == ZERO_STATS
      modifies overlay, maskColored, maskClasses.Values
      ensures ShowsCombined(maskColored, regions, stage)
      ensures forall c :: c in maskClasses ==> ShowsClass(maskClasses[c], regions, stage, c)
      ensures forall i, j :: 0 <= i < height && 0 <= j < width ==>
        overlay[i, j] == OverlayPixel(regions, stage, (i, j), old(overlay[i, j]))
      ensures stats.Keys == CATEGORY_SET
      ensures forall c :: c in stats ==> stats[c] == RunningStats(regions, stage, c)
    {
      stats := initial;
      ghost var source := Snapshot(overlay);
      assert regions[..0] == [];
      for k := 0 to |regions|
        invariant ShowsCombined(maskColored, regions[..k], stage)
        invariant forall c :: c in maskClasses ==> ShowsClass(maskClasses[c], regions[..k], stage, c)
        invariant ShowsOverlay(overlay, regions[..k], stage, source)
        invariant stats.Keys == CATEGORY_SET
        invariant forall c :: c in stats ==> stats[c] == RunningStats(regions[..k], stage, c)
      {
        PrefixStep(regions, k);
        PaintRegion(regions[..k], regions[k], stage, overlay, maskColored, maskClasses, height, width, source);
        TallyStep(regions[..k], regions[k], stage, stats);
        stats := Tally(stats, regions[k], stage);
      }
      assert regions[..|regions|] == regions;
    }

    /** Paints one more region into the combined mask, its category's mask and the overlay. */
    static method PaintRegion(
      done: seq<Region>, region: Region, stage: Stage,
      overlay: Canvas, maskColored: Canvas, maskClasses: map<Category, Canvas>, height: nat, width: nat,
      ghost source: seq<seq<Color>>)
      requires overlay.Length0 == height && overlay.Length1 == width
      requires maskColored.Length0 == height && maskColored.Length1 == width
      requires InBounds(region.coords, height, width)
      requires ClassCanvases(maskClasses, height, width)
      requires maskColored != overlay && maskColored !in maskClasses.Values && overlay !in maskClasses.Values
      requires ShowsCombined(maskColored, done, stage)
      requires forall c :: c in maskClasses ==> ShowsClass(maskClasses[c], done, stage, c)
      requires ShowsOverlay(overlay, done, stage, source)
      modifies overlay, maskColored, maskClasses.Values
      ensures ShowsCombined(maskColored, done + [region], stage)
      ensures forall c :: c in maskClasses ==> ShowsClass(maskClasses[c], done + [region], stage, c)
      ensures ShowsOverlay(overlay, done + [region], stage, source)
    {
      PaintCombined(maskColored, done, region, stage);
      PaintClass(maskClasses, done, region, stage, height, width);
      PaintOverlay(overlay, done, region, stage, source);
    }

    /** Paints one more region into the combined mask. */
    static method PaintCombined(maskColored: Canvas, done: seq<Region>, region: Region, stage: Stage)
      requires InBounds(region.coords, maskColored.Length0, maskColored.Length1)
      requires ShowsCombined(maskColored, done, stage)
      modifies maskColored
      ensures ShowsCombined(maskColored, done + [region], stage)
    {
      Paint(maskColored, region.coords, ColorOf(Classify(region, stage)));
      forall i, j | 0 <= i < maskColored.Length0 && 0 <= j < maskColored.Length1
        ensures maskColored[i, j] == CombinedPixel(done + [region], stage, (i, j))
      {
        CombinedStep(done, region, stage, (i, j));
      }
    }

    /** Paints one more region over the overlay. */
    static method PaintOverlay(overlay: Canvas, done: seq<Region>, region: Region, stage: Stage, ghost source: seq<seq<Color>>)
      requires InBounds(region.coords, overlay.Length0, overlay.Length1)
      requires ShowsOverlay(overlay, done, stage, source)
      modifies overlay
      ensures ShowsOverlay(overlay, done + [region], stage, source)
    {
      Paint(overlay, region.coords, ColorOf(Classify(region, stage)));
      forall i, j | 0 <= i < overlay.Length0 && 0 <= j < overlay.Length1
        ensures overlay[i, j] == OverlayPixel(done + [region], stage, (i, j), source[i][j])
      {
        OverlayStep(done, region, stage, (i, j), source[i][j]);
      }
    }

    /** Paints one more region into its own category's mask and leaves the other categories' masks alone. */
    static method PaintClass(classes: map<Category, Canvas>, done: seq<Region>, region: Region, stage: Stage, height: nat, width: nat)
      requires ClassCanvases(classes, height, width)
      requires InBounds(region.coords, height, width)
      requires forall c :: c in classes ==> ShowsClass(classes[c], done, stage, c)
      modifies classes.Values
      ensures forall c :: c in classes ==> ShowsClass(classes[c], done + [region], stage, c)
    {
      var cat := Classify(region, stage);
      TableHoldsEveryCategoryOnce(cat);
      var canvas := classes[cat];
      Paint(canvas, region.coords, ColorOf(cat));
      forall c, i, j | c in classes && 0 <= i < height && 0 <= j < width
        ensures classes[c][i, j] == ClassPixel(done + [region], stage, c, (i, j))
      {
        ClassStep(done, region, stage, c, (i, j));
      }
    }
  }
}
