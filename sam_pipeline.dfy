/**
 * The segmentation script's two passes: over the sorted JPG images (metrics
 * row, mask file and, at the end, a video of the saved masks read back by
 * name) and over the frames of an AVI stream (metrics row per frame read).
 */
module SamPipeline {
  import opened LabelMetrics
  import opened MaskNames

  /** What the segmentation model and the image reader give for one frame: its label mask and its grey-level intensities. */
  datatype SegmentedFrame = SegmentedFrame(mask: LabelMask, intensity: Intensity)

  /** One summary row: Frame, NumCells, AvgArea, AvgBrightness. */
  datatype MetricsRow = MetricsRow(frame: nat, numCells: int, avgArea: real, avgBrightness: real)

  /** The intensity image has one value per mask pixel, as the boolean indexing requires. */
  predicate WellShaped(f: SegmentedFrame)
  {
    |f.intensity| == |f.mask|
  }

  predicate AllWellShaped(frames: seq<SegmentedFrame>)
  {
    forall k :: 0 <= k < |frames| ==> WellShaped(frames[k])
  }

  /**
   * The row appended for the frame with index idx: it carries the index, a
   * cell count of -1 only for an empty image, an average area within the
   * image size and an average brightness within 0..255.
   */
  function RowFor(idx: nat, f: SegmentedFrame): (row: MetricsRow)
    requires WellShaped(f)
    ensures row.frame == idx
    ensures -1 <= row.numCells < |f.mask| && (row.numCells == -1 <==> f.mask == [])
    ensures 0.0 <= row.avgArea <= |f.mask| as real
    ensures 0.0 <= row.avgBrightness <= 255.0
  {
    AvgAreaBounded(f.mask);
    AvgBrightnessIsPixelMean(f.mask, f.intensity);
    MetricsRow(idx, NumCells(f.mask), AvgArea(f.mask), AvgBrightness(f.mask, f.intensity))
  }

  /** The rows a pass over the frames appends: row k carries index k and frame k's metrics. */
  function Rows(frames: seq<SegmentedFrame>): (rows: seq<MetricsRow>)
    requires AllWellShaped(frames)
    ensures |rows| == |frames|
    ensures forall k :: 0 <= k < |frames| ==> rows[k].frame == k
  {
    seq(|frames|, k requires 0 <= k < |frames| => RowFor(k, frames[k]))
  }

  /** Every row's average area is the mean object size and its brightness lies within 0..255. */
  lemma {:induction false} RowsAreMeans(frames: seq<SegmentedFrame>, k: nat)
    requires AllWellShaped(frames) && k < |frames|
    ensures var row := Rows(frames)[k];
      && row.frame == k
      && (|Areas(frames[k].mask)| > 0 ==> row.avgArea * |Areas(frames[k].mask)| as real == ForegroundCount(frames[k].mask) as real)
      && (|Areas(frames[k].mask)| == 0 ==> row.avgArea == 0.0)
      && 0.0 <= row.avgBrightness <= 255.0
  {
    AvgAreaIsMean(frames[k].mask);
    AvgBrightnessIsPixelMean(frames[k].mask, frames[k].intensity);
  }

  /** The mask files a pass over the frames saves, by name, each frame written after the ones before it. */
  function SavedMasks(frames: seq<SegmentedFrame>): (saved: map<string, LabelMask>)
    ensures forall k :: 0 <= k < |frames| ==> MaskFileName(k) in saved && saved[MaskFileName(k)] == frames[k].mask
  {
    if frames == [] then map[]
    else
      var n := |frames| - 1;
      var before := SavedMasks(frames[..n]);
      assert forall k :: 0 <= k < n ==> MaskFileName(k) != MaskFileName(n) && frames[..n][k] == frames[k] by {
        forall k | 0 <= k < n ensures MaskFileName(k) != MaskFileName(n) {
          MaskFileNamesDistinct(k, n);
        }
      }
      before[MaskFileName(n) := frames[n].mask]
  }

  /** Nothing but the frames' own masks is saved: every saved name parses back to the index of a frame of the pass. */
  lemma {:induction false} SavedNamesAreFrameIndices(frames: seq<SegmentedFrame>, name: string)
    requires name in SavedMasks(frames)
    ensures ParseMaskFileName(name).Some? && ParseMaskFileName(name).value < |frames|
    ensures name == MaskFileName(ParseMaskFileName(name).value)
  {
    var n := |frames| - 1;
    if name == MaskFileName(n) {
      MaskFileNameRoundTrip(n);
    } else {
      SavedNamesAreFrameIndices(frames[..n], name);
    }
  }

  /** One more frame adds its row at the end. */
  lemma RowsStep(frames: seq<SegmentedFrame>, idx: nat)
    requires AllWellShaped(frames) && idx < |frames|
    ensures AllWellShaped(frames[..idx]) && AllWellShaped(frames[..idx + 1])
    ensures Rows(frames[..idx + 1]) == Rows(frames[..idx]) + [RowFor(idx, frames[idx])]
  {
  }

  /** One more frame adds its mask under its own name. */
  lemma SavedMasksStep(frames: seq<SegmentedFrame>, idx: nat)
    requires idx < |frames|
    ensures SavedMasks(frames[..idx + 1]) == SavedMasks(frames[..idx])[MaskFileName(idx) := frames[idx].mask]
  {
    assert frames[..idx + 1][..idx] == frames[..idx];
  }

  /** Appending a row after a series of appends is one more append in the series. */
  lemma AppendAfterConcat<T>(a: seq<T>, b: seq<T>, x: T)
    ensures (a + b) + [x] == a + (b + [x])
  {
  }

  /** Writing a file after a series of writes is one more write in the series. */
  lemma UpdateAfterUnion<K, V>(a: map<K, V>, b: map<K, V>, key: K, v: V)
    ensures (a + b)[key := v] == a + b[key := v]
  {
  }

  class SamRun {
    /** The rows of the JPG pass. */
    var jpgData: seq<MetricsRow>
    /** The mask images written so far, by file name. */
    var savedMasks: map<string, LabelMask>
    /** The rows of the AVI pass. */
    var aviData: seq<MetricsRow>

    constructor ()
      ensures jpgData == [] && savedMasks == map[] && aviData == []
    {
      jpgData := [];
      savedMasks := map[];
      aviData := [];
    }

    /**
     * The JPG pass: for each image in order, save its mask as
     * mask_{idx:03}.png and append its row.
     */
    method ProcessJpgs(images: seq<SegmentedFrame>)
      requires AllWellShaped(images)
      modifies this
      ensures jpgData == old(jpgData) + Rows(images)
      ensures savedMasks == old(savedMasks) + SavedMasks(images)
      ensures aviData == old(aviData)
    {
      for idx := 0 to |images|
        invariant jpgData == old(jpgData) + Rows(images[..idx])
        invariant savedMasks == old(savedMasks) + SavedMasks(images[..idx])
        invariant aviData == old(aviData)
      {
        var image := images[idx];
        savedMasks := savedMasks[MaskFileName(idx) := image.mask];
        jpgData := jpgData + [RowFor(idx, image)];
        RowsStep(images, idx);
        AppendAfterConcat(old(jpgData), Rows(images[..idx]), RowFor(idx, image));
        SavedMasksStep(images, idx);
        UpdateAfterUnion(old(savedMasks), SavedMasks(images[..idx]), MaskFileName(idx), image.mask);
      }
      assert images[..|images|] == images;
    }

    /** Reads back the saved masks of frames 0 .. n-1, by name, in index order. */
    method ReadBackMasks(n: nat) returns (video: seq<LabelMask>)
      requires forall idx :: 0 <= idx < n ==> MaskFileName(idx) in savedMasks
      ensures |video| == n
      ensures forall idx :: 0 <= idx < n ==> video[idx] == savedMasks[MaskFileName(idx)]
    {
      video := [];
      for idx := 0 to n
        invariant |video| == idx
        invariant forall i :: 0 <= i < idx ==> video[i] == savedMasks[MaskFileName(i)]
      {
        video := video + [savedMasks[MaskFileName(idx)]];
      }
    }

    /**
     * The JPG pass followed by the mask video. The video's size is taken from
     * the last image's mask, so with no image the run fails after the rows
     * are written. Otherwise the video shows every image's mask in order:
     * each name read back is the one its mask was saved under.
     */
    method RunJpgs(images: seq<SegmentedFrame>) returns (ok: bool, video: seq<LabelMask>)
      requires AllWellShaped(images)
      modifies this
      ensures jpgData == old(jpgData) + Rows(images)
      ensures savedMasks == old(savedMasks) + SavedMasks(images)
      ensures ok <==> |images| > 0
      ensures ok ==> |video| == |images| && forall k :: 0 <= k < |images| ==> video[k] == images[k].mask
      ensures aviData == old(aviData)
    {
      ProcessJpgs(images);
      if |images| == 0 {
        return false, [];
      }
      video := ReadBackMasks(|images|);
      ok := true;
    }

    /**
     * The AVI pass: read frames until the capture gives none, appending one
     * row per frame with a frame counter that starts at 0 and rises by one
     * per frame read.
     */
    method ProcessAvi(stream: seq<SegmentedFrame>)
      requires AllWellShaped(stream)
      modifies this
      ensures aviData == old(aviData) + Rows(stream)
      ensures jpgData == old(jpgData) && savedMasks == old(savedMasks)
    {
      var read := 0;
      var frameIdx := 0;
      while true
        invariant 0 <= read <= |stream|
        invariant frameIdx == read
        invariant aviData == old(aviData) + Rows(stream[..read])
        invariant jpgData == old(jpgData) && savedMasks == old(savedMasks)
        decreases |stream| - read
      {
        if read >= |stream| {
          break;
        }
        var frame := stream[read];
        read := read + 1;
        aviData := aviData + [RowFor(frameIdx, frame)];
        RowsStep(stream, read - 1);
        AppendAfterConcat(old(aviData), Rows(stream[..read - 1]), RowFor(frameIdx, frame));
        frameIdx := frameIdx + 1;
      }
      assert stream[..read] == stream;
    }
  }
}
