/**
 * The renderer of the examination pipeline: each classified region's pixel
 * positions are painted with its category's colour into the combined mask,
 * the overlay and the mask of its own category.
 *
 * The functions below give, pixel by pixel, what each canvas holds once a
 * frame's regions have been painted in order; the pipeline's methods are
 * proved to produce exactly these canvases.
 */
module Painting {
  import opened Options
  import opened Categories
  import opened Classifier

  /** A painted image: height x width pixels. */
  type Canvas = array2<Color>

  /** Every position lies inside a height x width image. */
  predicate InBounds(coords: seq<Pixel>, height: nat, width: nat)
  {
    forall k :: 0 <= k < |coords| ==> 0 <= coords[k].0 < height && 0 <= coords[k].1 < width
  }

  /** Every region of the frame lies inside a height x width image. */
  predicate RegionsInBounds(regions: seq<Region>, height: nat, width: nat)
  {
    forall k :: 0 <= k < |regions| ==> InBounds(regions[k].coords, height, width)
  }

  /**
   * The category of the LAST region (in painting order) whose pixels include p,
   * or None when no region covers p: later regions overwrite earlier ones.
   */
  function CoverOf(regions: seq<Region>, stage: Stage, p: Pixel): (o: Option<Category>)
    ensures o.Some? ==> CoveredBy(regions, stage, o.value, p)
    ensures o.None? ==> forall c :: !CoveredBy(regions, stage, c, p)
  {
    if regions == [] then None
    else
      var last := regions[|regions| - 1];
      if p in last.coords then Some(Classify(last, stage))
      else CoverOf(regions[..|regions| - 1], stage, p)
  }

  /** Does some region of category c include p? */
  predicate CoveredBy(regions: seq<Region>, stage: Stage, c: Category, p: Pixel)
  {
    if regions == [] then false
    else
      var last := regions[|regions| - 1];
      (p in last.coords && Classify(last, stage) == c) || CoveredBy(regions[..|regions| - 1], stage, c, p)
  }

  /**
   * No region covers p exactly when CoverOf finds none; when it finds a
   * category, some region of that category covers p and no later region does.
   */
  lemma {:induction false} CoverOfFindsLastCover(regions: seq<Region>, stage: Stage, p: Pixel)
    ensures CoverOf(regions, stage, p).None? <==> forall k :: 0 <= k < |regions| ==> p !in regions[k].coords
    ensures CoverOf(regions, stage, p).Some? ==>
      exists k :: 0 <= k < |regions| && p in regions[k].coords && Classify(regions[k], stage) == CoverOf(regions, stage, p).value
        && forall k' :: k < k' < |regions| ==> p !in regions[k'].coords
  {
    if regions != [] {
      var prefix, last := regions[..|regions| - 1], regions[|regions| - 1];
      CoverOfFindsLastCover(prefix, stage, p);
      assert forall k :: 0 <= k < |prefix| ==> prefix[k] == regions[k];
      if p !in last.coords && CoverOf(prefix, stage, p).Some? {
        var k :| 0 <= k < |prefix| && p in prefix[k].coords && Classify(prefix[k], stage) == CoverOf(prefix, stage, p).value
          && forall k' :: k < k' < |prefix| ==> p !in prefix[k'].coords;
        assert p in regions[k].coords;
      }
    }
  }

  /** CoveredBy holds exactly when some region of category c includes p. */
  lemma {:induction false} CoveredByMeansSomeRegion(regions: seq<Region>, stage: Stage, c: Category, p: Pixel)
    ensures CoveredBy(regions, stage, c, p) <==>
      exists k :: 0 <= k < |regions| && p in regions[k].coords && Classify(regions[k], stage) == c
  {
    if regions != [] {
      var prefix := regions[..|regions| - 1];
      CoveredByMeansSomeRegion(prefix, stage, c, p);
      assert forall k :: 0 <= k < |prefix| ==> prefix[k] == regions[k];
    }
  }

  /**
   * A pixel of the combined mask: the colour of the last region covering it,
   * or black; it reads back as that region's category, or as none.
   */
  function CombinedPixel(regions: seq<Region>, stage: Stage, p: Pixel): (px: Color)
    ensures CategoryOfColor(px) == CoverOf(regions, stage, p)
    ensures px == BLACK <==> CoverOf(regions, stage, p).None?
  {
    BlackIsNoCategory();
    match CoverOf(regions, stage, p)
    case None => BLACK
    case Some(c) => ColorRoundTrip(c); ColorOf(c)
  }

  /**
   * A pixel of the overlay: the source pixel where no region covers it;
   * elsewhere the colour of the last region covering it, which reads back as
   * that region's category.
   */
  function OverlayPixel(regions: seq<Region>, stage: Stage, p: Pixel, source: Color): (px: Color)
    ensures CoverOf(regions, stage, p).None? ==> px == source
    ensures CoverOf(regions, stage, p).Some? ==> CategoryOfColor(px) == CoverOf(regions, stage, p)
  {
    match CoverOf(regions, stage, p)
    case None => source
    case Some(c) => ColorRoundTrip(c); ColorOf(c)
  }

  /**
   * A pixel of category c's mask: only ever black or c's colour, and it reads
   * back as c exactly when a region of category c covers it.
   */
  function ClassPixel(regions: seq<Region>, stage: Stage, c: Category, p: Pixel): (px: Color)
    ensures px == BLACK || px == ColorOf(c)
    ensures CategoryOfColor(px) == if CoveredBy(regions, stage, c, p) then Some(c) else None
  {
    BlackIsNoCategory();
    ColorRoundTrip(c);
    if CoveredBy(regions, stage, c, p) then ColorOf(c) else BLACK
  }

  /**
   * The regions that the classifier puts in category c, in their original
   * order.
   */
  function OfCategory(regions: seq<Region>, stage: Stage, c: Category): (rs: seq<Region>)
    ensures |rs| <= |regions|
    ensures forall k :: 0 <= k < |rs| ==> Classify(rs[k], stage) == c
  {
    if regions == [] then []
    else
      var last := regions[|regions| - 1];
      OfCategory(regions[..|regions| - 1], stage, c) + (if Classify(last, stage) == c then [last] else [])
  }

  /** Selecting from one more region. */
  lemma OfCategoryStep(regions: seq<Region>, r: Region, stage: Stage, c: Category)
    ensures OfCategory(regions + [r], stage, c) == OfCategory(regions, stage, c) + (if Classify(r, stage) == c then [r] else [])
  {
    assert (regions + [r])[..|regions|] == regions;
  }

  /**
   * The selection holds every region of category c, as often as the input
   * does, and no other region.
   */
  lemma {:induction false} OfCategoryCounts(regions: seq<Region>, stage: Stage, c: Category, r: Region)
    ensures multiset(OfCategory(regions, stage, c))[r] == if Classify(r, stage) == c then multiset(regions)[r] else 0
    ensures r in OfCategory(regions, stage, c) <==> r in regions && Classify(r, stage) == c
  {
    if regions != [] {
      var n := |regions| - 1;
      var prefix, last := regions[..n], regions[n];
      assert regions == prefix + [last];
      OfCategoryCounts(prefix, stage, c, r);
      OfCategoryStep(prefix, last, stage, c);
      assert multiset(regions) == multiset(prefix) + multiset{last};
    }
  }

  /** The positions of the regions of category c, in increasing order. */
  function PositionsOf(regions: seq<Region>, stage: Stage, c: Category): (pos: seq<nat>)
    ensures forall k :: 0 <= k < |pos| ==> pos[k] < |regions|
    ensures forall k, k' :: 0 <= k < k' < |pos| ==> pos[k] < pos[k']
    ensures forall i :: 0 <= i < |regions| ==> (i in pos <==> Classify(regions[i], stage) == c)
  {
    if regions == [] then []
    else
      var n := |regions| - 1;
      var before := PositionsOf(regions[..n], stage, c);
      assert forall i :: 0 <= i < n ==> regions[..n][i] == regions[i];
      before + (if Classify(regions[n], stage) == c then [n] else [])
  }

  /** The positions among one more region. */
  lemma PositionsStep(regions: seq<Region>, r: Region, stage: Stage, c: Category)
    ensures PositionsOf(regions + [r], stage, c) == PositionsOf(regions, stage, c) + (if Classify(r, stage) == c then [|regions|] else [])
  {
    assert (regions + [r])[..|regions|] == regions;
  }

  /**
   * The selection keeps the regions' order: its k-th region is the input
   * region at the k-th position of category c.
   */
  lemma {:induction false} OfCategoryIsSubsequence(regions: seq<Region>, stage: Stage, c: Category)
    ensures |OfCategory(regions, stage, c)| == |PositionsOf(regions, stage, c)|
    ensures forall k :: 0 <= k < |PositionsOf(regions, stage, c)| ==>
      OfCategory(regions, stage, c)[k] == regions[PositionsOf(regions, stage, c)[k]]
  {
    if regions != [] {
      var n := |regions| - 1;
      var prefix, last := regions[..n], regions[n];
      assert regions == prefix + [last];
      OfCategoryIsSubsequence(prefix, stage, c);
      OfCategoryStep(prefix, last, stage, c);
      PositionsStep(prefix, last, stage, c);
      var sel, pos := OfCategory(regions, stage, c), PositionsOf(regions, stage, c);
      var sel', pos' := OfCategory(prefix, stage, c), PositionsOf(prefix, stage, c);
      forall k | 0 <= k < |pos| ensures sel[k] == regions[pos[k]] {
        if k < |pos'| {
          assert sel[k] == sel'[k] && pos[k] == pos'[k];
          assert prefix[pos'[k]] == regions[pos'[k]];
        }
      }
    }
  }

  /**
   * Paints every position of coords with one colour and leaves all other pixels
   * as they were (numpy's canvas[coords[:,0], coords[:,1], :] = color).
   */
  method Paint(canvas: Canvas, coords: seq<Pixel>, color: Color)
    requires InBounds(coords, canvas.Length0, canvas.Length1)
    modifies canvas
    ensures forall i, j :: 0 <= i < canvas.Length0 && 0 <= j < canvas.Length1 ==>
      canvas[i, j] == if (i, j) in coords then color else old(canvas[i, j])
  {
    for k := 0 to |coords|
      invariant forall i, j :: 0 <= i < canvas.Length0 && 0 <= j < canvas.Length1 ==>
        canvas[i, j] == if (i, j) in coords[..k] then color else old(canvas[i, j])
    {
      var (y, x) := coords[k];
      canvas[y, x] := color;
      assert coords[..k + 1] == coords[..k] + [coords[k]];
    }
  }

  /** Painting one more region onto the combined mask. */
  lemma {:induction false} CombinedStep(regions: seq<Region>, r: Region, stage: Stage, p: Pixel)
    ensures CombinedPixel(regions + [r], stage, p) ==
            if p in r.coords then ColorOf(Classify(r, stage)) else CombinedPixel(regions, stage, p)
  {
    assert (regions + [r])[..|regions|] == regions;
  }

  /** Painting one more region onto the overlay. */
  lemma {:induction false} OverlayStep(regions: seq<Region>, r: Region, stage: Stage, p: Pixel, source: Color)
    ensures OverlayPixel(regions + [r], stage, p, source) ==
            if p in r.coords then ColorOf(Classify(r, stage)) else OverlayPixel(regions, stage, p, source)
  {
    assert (regions + [r])[..|regions|] == regions;
  }

  /** Painting one more region onto the mask of category c: only a region of category c changes it. */
  lemma {:induction false} ClassStep(regions: seq<Region>, r: Region, stage: Stage, c: Category, p: Pixel)
    ensures ClassPixel(regions + [r], stage, c, p) ==
            if p in r.coords && Classify(r, stage) == c then ColorOf(c) else ClassPixel(regions, stage, c, p)
  {
    assert (regions + [r])[..|regions|] == regions;
  }

  /** A pixel that no region covers is black in the combined mask and in every category mask, and keeps the source pixel in the overlay. */
  lemma {:induction false} UncoveredPixelUntouched(regions: seq<Region>, stage: Stage, p: Pixel, source: Color)
    requires forall k :: 0 <= k < |regions| ==> p !in regions[k].coords
    ensures CombinedPixel(regions, stage, p) == BLACK
    ensures OverlayPixel(regions, stage, p, source) == source
    ensures forall c: Category :: ClassPixel(regions, stage, c, p) == BLACK
  {
    CoverOfFindsLastCover(regions, stage, p);
    forall c: Category ensures !CoveredBy(regions, stage, c, p) {
      CoveredByMeansSomeRegion(regions, stage, c, p);
    }
  }

  /** A pixel of the combined mask is black exactly when no region covers it. */
  lemma {:induction false} CombinedPixelReadsBack(regions: seq<Region>, stage: Stage, p: Pixel)
    ensures CombinedPixel(regions, stage, p) != BLACK <==> exists k :: 0 <= k < |regions| && p in regions[k].coords
  {
    CoverOfFindsLastCover(regions, stage, p);
  }

  /** When the regions are pairwise disjoint (as a label mask makes them), each region's pixels carry its own category's colour. */
  lemma {:induction false} DisjointRegionsKeepOwnColor(regions: seq<Region>, stage: Stage, k: nat, p: Pixel)
    requires k < |regions| && p in regions[k].coords
    requires forall i, j :: 0 <= i < j < |regions| ==> forall q :: q in regions[i].coords ==> q !in regions[j].coords
    ensures CombinedPixel(regions, stage, p) == ColorOf(Classify(regions[k], stage))
    ensures ClassPixel(regions, stage, Classify(regions[k], stage), p) == ColorOf(Classify(regions[k], stage))
  {
    var prefix := regions[..|regions| - 1];
    assert regions == prefix + [regions[|regions| - 1]];
    CombinedStep(prefix, regions[|regions| - 1], stage, p);
    ClassStep(prefix, regions[|regions| - 1], stage, Classify(regions[k], stage), p);
    if k < |regions| - 1 {
      assert p !in regions[|regions| - 1].coords;
      assert prefix[k] == regions[k];
      DisjointRegionsKeepOwnColor(prefix, stage, k, p);
    }
  }

  /** The mask of category c depends only on the regions classified as c: all other regions leave it alone. */
  lemma {:induction false} ClassPixelOnlyFromOwnCategory(regions: seq<Region>, stage: Stage, c: Category, p: Pixel)
    ensures ClassPixel(regions, stage, c, p) == ClassPixel(OfCategory(regions, stage, c), stage, c, p)
  {
    if regions != [] {
      var prefix, last := regions[..|regions| - 1], regions[|regions| - 1];
      assert regions == prefix + [last];
      ClassPixelOnlyFromOwnCategory(prefix, stage, c, p);
      ClassStep(prefix, last, stage, c, p);
      if Classify(last, stage) == c {
        assert OfCategory(regions, stage, c) == OfCategory(prefix, stage, c) + [last];
        ClassStep(OfCategory(prefix, stage, c), last, stage, c, p);
      } else {
        assert OfCategory(regions, stage, c) == OfCategory(prefix, stage, c);
      }
    }
  }
}
