/**
 * The uncategorised per-frame metrics of the segmentation script, computed
 * from a label mask (0 is background, every other value one object) and an
 * intensity image of the same shape. Both images are taken flattened in
 * row-major order: every metric here is independent of pixel order.
 */
module LabelMetrics {
  import opened Categories

  /** The label of every pixel, row by row. */
  type LabelMask = seq<nat>

  /** The single-channel intensity of every pixel, row by row. */
  type Intensity = seq<Byte>

  predicate StrictlyIncreasing(s: seq<nat>)
  {
    forall i, j :: 0 <= i < j < |s| ==> s[i] < s[j]
  }

  /** The values a sequence holds. */
  function Elems(s: seq<nat>): set<nat>
  {
    set v | v in s
  }

  /** Puts x into its place in an increasing sequence of distinct values, unless it is already there. */
  function Insert(x: nat, s: seq<nat>): (r: seq<nat>)
    requires StrictlyIncreasing(s)
    ensures StrictlyIncreasing(r)
    ensures forall v :: v in r <==> v == x || v in s
    ensures |r| <= |s| + 1
  {
    if s == [] then [x]
    else if x < s[0] then [x] + s
    else if x == s[0] then s
    else
      var rest := Insert(x, s[1..]);
      assert forall v :: v in rest ==> s[0] < v;
      assert forall j :: 0 <= j < |rest| ==> rest[j] in rest;
      [s[0]] + rest
  }

  /** np.unique: the distinct labels of the mask, in increasing order. */
  function Unique(mask: LabelMask): (u: seq<nat>)
    ensures StrictlyIncreasing(u)
    ensures forall v :: v in u <==> v in mask
    ensures |u| <= |mask|
  {
    if mask == [] then []
    else Insert(mask[0], Unique(mask[1..]))
  }

  /** The labels other than the background, in their order. */
  function NonZero(labels: seq<nat>): (r: seq<nat>)
    ensures forall v :: v in r <==> v in labels && v != 0
  {
    if labels == [] then []
    else (if labels[0] != 0 then [labels[0]] else []) + NonZero(labels[1..])
  }

  /** np.sum(masks == label): the number of pixels carrying that label. */
  function PixelCount(mask: LabelMask, l: nat): nat
  {
    if mask == [] then 0
    else (if mask[0] == l then 1 else 0) + PixelCount(mask[1..], l)
  }

  /** The number of pixels whose label belongs to the set. */
  function CountIn(mask: LabelMask, labels: set<nat>): nat
  {
    if mask == [] then 0
    else (if mask[0] in labels then 1 else 0) + CountIn(mask[1..], labels)
  }

  /** np.sum(masks > 0): the number of foreground pixels. */
  function ForegroundCount(mask: LabelMask): nat
  {
    if mask == [] then 0
    else (if mask[0] > 0 then 1 else 0) + ForegroundCount(mask[1..])
  }

  /** The sum of the intensities of the foreground pixels. */
  function ForegroundSum(mask: LabelMask, image: Intensity): nat
    requires |image| == |mask|
  {
    if mask == [] then 0
    else (if mask[0] > 0 then image[0] else 0) + ForegroundSum(mask[1..], image[1..])
  }

  /** The pixel count of each of the given labels, in their order. */
  function CountsOf(mask: LabelMask, labels: seq<nat>): (counts: seq<nat>)
    ensures |counts| == |labels|
  {
    seq(|labels|, i requires 0 <= i < |labels| => PixelCount(mask, labels[i]))
  }

  /** The areas list: one pixel count per distinct non-zero label, in increasing label order. */
  function Areas(mask: LabelMask): seq<nat>
  {
    CountsOf(mask, NonZero(Unique(mask)))
  }

  function Sum(xs: seq<nat>): nat
  {
    if xs == [] then 0 else xs[0] + Sum(xs[1..])
  }

  /**
   * num_cells: the number of distinct mask values minus one, whether or not
   * the background occurs; -1 for an empty mask, and never more than the
   * number of pixels minus one.
   */
  function NumCells(mask: LabelMask): (n: int)
    ensures -1 <= n <= |mask| - 1
    ensures n == -1 <==> mask == []
  {
    assert mask != [] ==> mask[0] in Unique(mask);
    |Unique(mask)| - 1
  }

  /** avg_area: the mean of the areas list, or 0 when it is empty. */
  function AvgArea(mask: LabelMask): real
  {
    var areas := Areas(mask);
    if |areas| > 0 then Sum(areas) as real / |areas| as real else 0.0
  }

  /** avg_brightness: the mean intensity over all foreground pixels, or 0 when there is none. */
  function AvgBrightness(mask: LabelMask, image: Intensity): real
    requires |image| == |mask|
  {
    var n := ForegroundCount(mask);
    if n > 0 then ForegroundSum(mask, image) as real / n as real else 0.0
  }

  /** A label's pixel count is the number of times it occurs in the mask, so it is at least 1 exactly when the label occurs. */
  lemma {:induction false} PixelCountPositive(mask: LabelMask, l: nat)
    ensures PixelCount(mask, l) == multiset(mask)[l]
    ensures PixelCount(mask, l) >= 1 <==> l in mask
  {
    if mask != [] {
      PixelCountPositive(mask[1..], l);
      assert mask == [mask[0]] + mask[1..];
    }
  }

  /** The foreground pixels are the pixels whose label is not 0. */
  lemma {:induction false} ForegroundCountIsNonZero(mask: LabelMask)
    ensures ForegroundCount(mask) == |mask| - multiset(mask)[0]
  {
    if mask != [] {
      ForegroundCountIsNonZero(mask[1..]);
      assert mask == [mask[0]] + mask[1..];
    }
  }

  /** A strictly increasing sequence holds as many distinct values as it has elements. */
  lemma {:induction false} DistinctValuesCounted(s: seq<nat>)
    requires StrictlyIncreasing(s)
    ensures |Elems(s)| == |s|
  {
    if s != [] {
      DistinctValuesCounted(s[1..]);
      assert Elems(s) == {s[0]} + Elems(s[1..]);
      assert s[0] !in Elems(s[1..]);
    }
  }

  /**
   * The areas list has one entry per distinct non-zero label of the mask, in
   * increasing label order, and each entry is that label's pixel count, so at least 1.
   */
  lemma {:induction false} AreasOnePerLabel(mask: LabelMask)
    ensures |Areas(mask)| == |Elems(mask) - {0}|
    ensures exists labels: seq<nat> ::
      && StrictlyIncreasing(labels)
      && Elems(labels) == Elems(mask) - {0}
      && |labels| == |Areas(mask)|
      && forall i :: 0 <= i < |labels| ==> Areas(mask)[i] == PixelCount(mask, labels[i]) >= 1
  {
    var labels := NonZero(Unique(mask));
    NonZeroKeepsOrder(Unique(mask));
    DistinctValuesCounted(labels);
    assert Elems(labels) == Elems(mask) - {0};
    AreasAtLeastOne(mask);
  }

  /** Every area is at least one pixel: each label in the list occurs in the mask. */
  lemma AreasAtLeastOne(mask: LabelMask)
    ensures forall i :: 0 <= i < |Areas(mask)| ==> Areas(mask)[i] >= 1
  {
    var labels := NonZero(Unique(mask));
    forall i | 0 <= i < |labels| ensures PixelCount(mask, labels[i]) >= 1 {
      assert labels[i] in labels;
      PixelCountPositive(mask, labels[i]);
    }
  }

  /**
   * In an increasing sequence of labels the background can only come first,
   * so dropping it removes the first entry when that is 0 and nothing otherwise.
   */
  lemma {:induction false} NonZeroDropsLeadingZero(labels: seq<nat>)
    requires StrictlyIncreasing(labels)
    ensures NonZero(labels) == if labels != [] && labels[0] == 0 then labels[1..] else labels
  {
    if labels != [] {
      var rest := labels[1..];
      NonZeroDropsLeadingZero(rest);
      if rest != [] {
        assert labels[0] < rest[0];
      }
    }
  }

  /** Dropping the background keeps the labels strictly increasing and removes one entry exactly when 0 was there. */
  lemma {:induction false} NonZeroKeepsOrder(labels: seq<nat>)
    requires StrictlyIncreasing(labels)
    ensures StrictlyIncreasing(NonZero(labels))
    ensures |NonZero(labels)| == if 0 in labels then |labels| - 1 else |labels|
  {
    NonZeroDropsLeadingZero(labels);
  }

  /** Adding a label not yet in the set adds exactly its pixels to the count. */
  lemma {:induction false} CountInAddLabel(mask: LabelMask, labels: set<nat>, x: nat)
    requires x !in labels
    ensures CountIn(mask, labels + {x}) == CountIn(mask, labels) + PixelCount(mask, x)
  {
    if mask != [] {
      CountInAddLabel(mask[1..], labels, x);
    }
  }

  /** Summing the pixel counts of distinct labels counts the pixels carrying any of them. */
  lemma {:induction false} SumOfCountsIsCountIn(mask: LabelMask, labels: seq<nat>)
    requires StrictlyIncreasing(labels)
    ensures Sum(CountsOf(mask, labels)) == CountIn(mask, Elems(labels))
  {
    if labels == [] {
      CountInEmpty(mask);
      assert Elems(labels) == {};
    } else {
      var rest := labels[1..];
      SumOfCountsIsCountIn(mask, rest);
      assert CountsOf(mask, labels) == [PixelCount(mask, labels[0])] + CountsOf(mask, rest);
      assert Elems(labels) == Elems(rest) + {labels[0]};
      assert labels[0] !in Elems(rest);
      CountInAddLabel(mask, Elems(rest), labels[0]);
    }
  }

  /** No pixel carries a label of the empty set. */
  lemma {:induction false} CountInEmpty(mask: LabelMask)
    ensures CountIn(mask, {}) == 0
  {
    if mask != [] {
      CountInEmpty(mask[1..]);
    }
  }

  /** Counting the pixels whose label is among the mask's non-zero labels counts the foreground. */
  lemma {:induction false} CountInForeground(mask: LabelMask, labels: set<nat>)
    requires forall v :: v in mask ==> (v in labels <==> v > 0)
    ensures CountIn(mask, labels) == ForegroundCount(mask)
  {
    if mask != [] {
      assert forall v :: v in mask[1..] ==> v in mask;
      CountInForeground(mask[1..], labels);
    }
  }

  /** The areas add up to the number of foreground pixels. */
  lemma {:induction false} AreasSumToForeground(mask: LabelMask)
    ensures Sum(Areas(mask)) == ForegroundCount(mask)
  {
    var labels := NonZero(Unique(mask));
    NonZeroKeepsOrder(Unique(mask));
    SumOfCountsIsCountIn(mask, labels);
    CountInForeground(mask, Elems(labels));
  }

  /**
   * num_cells is the number of distinct values minus one: it matches the
   * number of areas when the background occurs, and is one less otherwise.
   */
  lemma {:induction false} NumCellsAgainstAreas(mask: LabelMask)
    ensures NumCells(mask) == |Elems(mask)| - 1
    ensures 0 in mask ==> NumCells(mask) == |Areas(mask)|
    ensures 0 !in mask ==> NumCells(mask) == |Areas(mask)| - 1
  {
    NonZeroKeepsOrder(Unique(mask));
    DistinctValuesCounted(Unique(mask));
    assert Elems(Unique(mask)) == Elems(mask);
  }

  /** A mask of two objects and no background reports one cell although it holds two. */
  lemma NoBackgroundUndercounts()
    ensures NumCells([1, 2, 2]) == 1
    ensures |Areas([1, 2, 2])| == 2
  {
    NumCellsAgainstAreas([1, 2, 2]);
    assert 0 !in [1, 2, 2];
    assert Elems([1, 2, 2]) == {1, 2};
  }

  /** Dividing by a non-zero count and multiplying back gives the sum. */
  lemma MeanTimesCount(sum: real, n: real)
    requires n != 0.0
    ensures sum / n * n == sum
  {
  }

  /** avg_area is 0 with no object, and otherwise the mean area: it times the number of objects is the foreground size. */
  lemma {:induction false} AvgAreaIsMean(mask: LabelMask)
    ensures |Areas(mask)| == 0 ==> AvgArea(mask) == 0.0 && ForegroundCount(mask) == 0
    ensures |Areas(mask)| > 0 ==> AvgArea(mask) * |Areas(mask)| as real == ForegroundCount(mask) as real
  {
    AreasSumToForeground(mask);
    if |Areas(mask)| > 0 {
      MeanTimesCount(Sum(Areas(mask)) as real, |Areas(mask)| as real);
    }
  }

  /** avg_area lies between 0 and the number of pixels, and is at least 1 when there is an object. */
  lemma AvgAreaBounded(mask: LabelMask)
    ensures 0.0 <= AvgArea(mask) <= |mask| as real
    ensures |Areas(mask)| > 0 ==> AvgArea(mask) >= 1.0
  {
    var n := |Areas(mask)|;
    if n > 0 {
      AreasAtLeastOne(mask);
      AreasSumAtLeastCount(Areas(mask));
      AreasSumToForeground(mask);
      AvgAreaIsMean(mask);
      MeanWithin(AvgArea(mask), ForegroundCount(mask) as real, |Areas(mask)| as real);
      ForegroundCountIsNonZero(mask);
    }
  }

  /** Areas of at least one pixel each add up to at least their number. */
  lemma {:induction false} AreasSumAtLeastCount(areas: seq<nat>)
    requires forall i :: 0 <= i < |areas| ==> areas[i] >= 1
    ensures Sum(areas) >= |areas|
  {
    if areas != [] {
      AreasSumAtLeastCount(areas[1..]);
    }
  }

  /** A mean over at least one value, whose sum is at least the count, lies between 1 and the sum. */
  lemma MeanWithin(avg: real, sum: real, n: real)
    requires n >= 1.0 && avg * n == sum && sum >= n
    ensures 1.0 <= avg <= sum
  {
    if avg < 1.0 {
      assert avg * n < 1.0 * n;
    }
  }

  /** The foreground intensities sum to at most 255 per foreground pixel. */
  lemma {:induction false} ForegroundSumBounded(mask: LabelMask, image: Intensity)
    requires |image| == |mask|
    ensures ForegroundSum(mask, image) <= 255 * ForegroundCount(mask)
  {
    if mask != [] {
      ForegroundSumBounded(mask[1..], image[1..]);
    }
  }

  /** A sum of n values, each at most bound, has a mean of at most bound. */
  lemma MeanBounded(sum: real, n: real, bound: real)
    requires n > 0.0 && 0.0 <= sum <= bound * n
    ensures 0.0 <= sum / n <= bound
  {
  }

  /**
   * avg_brightness is 0 with no foreground pixel; otherwise it is the
   * per-pixel mean of the foreground intensities, so it lies within 0..255.
   */
  lemma {:induction false} AvgBrightnessIsPixelMean(mask: LabelMask, image: Intensity)
    requires |image| == |mask|
    ensures ForegroundCount(mask) == 0 ==> AvgBrightness(mask, image) == 0.0
    ensures ForegroundCount(mask) > 0 ==>
      AvgBrightness(mask, image) * ForegroundCount(mask) as real == ForegroundSum(mask, image) as real
    ensures 0.0 <= AvgBrightness(mask, image) <= 255.0
  {
    ForegroundSumBounded(mask, image);
    var n := ForegroundCount(mask);
    if n > 0 {
      var sum := ForegroundSum(mask, image) as real;
      MeanTimesCount(sum, n as real);
      MeanBounded(sum, n as real, 255.0);
    }
  }

  /**
   * The brightness is weighted per pixel, not per cell: a one-pixel object of
   * intensity 0 next to a three-pixel object of intensity 200 gives 150, not 100.
   */
  lemma BrightnessWeightsPixels()
    ensures AvgBrightness([1, 2, 2, 2], [0, 200, 200, 200]) == 150.0
  {
  }
}
