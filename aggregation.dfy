/**
 * The per-frame aggregator of the examination pipeline: per category, the
 * number of regions and the sums of their areas and mean intensities,
 * turned into averages once all regions of the frame are counted.
 */
module Aggregation {
  import opened Categories
  import opened Classifier
  import opened Painting

  /**
   * The three entries a frame's summary holds for one category. While the
   * regions are being counted, avgArea and avgBrightness hold running sums;
   * the final pass turns them into averages.
   */
  datatype CategoryStats = CategoryStats(count: nat, avgArea: real, avgBrightness: real)

  /** One summary row: the frame's file name and the entries of every category. */
  datatype FrameRow = FrameRow(frame: string, stats: map<Category, CategoryStats>)

  const ZERO_STATS := CategoryStats(0, 0.0, 0.0)

  /** The category of every region, in order. */
  function Categorize(regions: seq<Region>, stage: Stage): (cs: seq<Category>)
    ensures |cs| == |regions|
    ensures forall k :: 0 <= k < |regions| ==> cs[k] == Classify(regions[k], stage)
  {
    if regions == [] then []
    else Categorize(regions[..|regions| - 1], stage) + [Classify(regions[|regions| - 1], stage)]
  }

  /** The number of regions classified as c. */
  function CountOf(regions: seq<Region>, stage: Stage, c: Category): (n: nat)
    ensures n <= |regions|
  {
    if regions == [] then 0
    else
      var last := regions[|regions| - 1];
      CountOf(regions[..|regions| - 1], stage, c) + (if Classify(last, stage) == c then 1 else 0)
  }

  /** The sum of the areas of the regions classified as c. */
  function AreaSumOf(regions: seq<Region>, stage: Stage, c: Category): (sum: real)
  {
    if regions == [] then 0.0
    else
      var last := regions[|regions| - 1];
      AreaSumOf(regions[..|regions| - 1], stage, c) + (if Classify(last, stage) == c then last.area as real else 0.0)
  }

  /** The sum of the mean intensities of the regions classified as c. */
  function BrightnessSumOf(regions: seq<Region>, stage: Stage, c: Category): (sum: real)
  {
    if regions == [] then 0.0
    else
      var last := regions[|regions| - 1];
      BrightnessSumOf(regions[..|regions| - 1], stage, c) + (if Classify(last, stage) == c then last.meanIntensity else 0.0)
  }

  /** A sum divided by a count, or the sum left as it is (zero) when the count is zero. */
  function Average(sum: real, count: nat): (avg: real)
    ensures count > 0 ==> avg * (count as real) == sum
    ensures count == 0 ==> avg == sum
  {
    if count > 0 then sum / (count as real) else sum
  }

  /** A category's entries after its regions are counted, before averaging. */
  function RunningStats(regions: seq<Region>, stage: Stage, c: Category): CategoryStats
  {
    CategoryStats(CountOf(regions, stage, c), AreaSumOf(regions, stage, c), BrightnessSumOf(regions, stage, c))
  }

  /** Turns a category's running sums into averages. */
  function Averaged(s: CategoryStats): CategoryStats
  {
    CategoryStats(s.count, Average(s.avgArea, s.count), Average(s.avgBrightness, s.count))
  }

  /**
   * A category's entries once the frame is done: its count; zero averages
   * when it has no regions; otherwise averages that, multiplied by the count,
   * give back the sums.
   */
  function FinalStats(regions: seq<Region>, stage: Stage, c: Category): (entry: CategoryStats)
    ensures entry.count == CountOf(regions, stage, c)
    ensures entry.count == 0 ==> entry == ZERO_STATS
    ensures entry.count > 0 ==> entry.avgArea * (entry.count as real) == AreaSumOf(regions, stage, c)
    ensures entry.count > 0 ==> entry.avgBrightness * (entry.count as real) == BrightnessSumOf(regions, stage, c)
  {
    var n := CountOf(regions, stage, c);
    if n == 0 then
      EmptyCategoryHasZeroSums(regions, stage, c);
      ZERO_STATS
    else
      CategoryStats(n, Average(AreaSumOf(regions, stage, c), n), Average(BrightnessSumOf(regions, stage, c), n))
  }

  /** A category with no regions has zero sums. */
  lemma {:induction false} EmptyCategoryHasZeroSums(regions: seq<Region>, stage: Stage, c: Category)
    requires CountOf(regions, stage, c) == 0
    ensures AreaSumOf(regions, stage, c) == 0.0 && BrightnessSumOf(regions, stage, c) == 0.0
  {
    if regions != [] {
      EmptyCategoryHasZeroSums(regions[..|regions| - 1], stage, c);
    }
  }

  /**
   * Every region of a cell category has at least the minimum area (50), every
   * fragment at most 49, and every dead cell a mean intensity below 100; so
   * their sums are bounded by the count.
   */
  lemma {:induction false} SumsBounded(regions: seq<Region>, stage: Stage, c: Category)
    ensures AreaSumOf(regions, stage, c) >= 0.0
    ensures c != Fragmento ==> AreaSumOf(regions, stage, c) >= 50.0 * (CountOf(regions, stage, c) as real)
    ensures c == Fragmento ==> AreaSumOf(regions, stage, c) <= 49.0 * (CountOf(regions, stage, c) as real)
    ensures c == CircularMuerta ==> BrightnessSumOf(regions, stage, c) <= 100.0 * (CountOf(regions, stage, c) as real)
    ensures c == CircularMuerta && CountOf(regions, stage, c) > 0 ==>
      BrightnessSumOf(regions, stage, c) < 100.0 * (CountOf(regions, stage, c) as real)
  {
    if regions != [] {
      SumsBounded(regions[..|regions| - 1], stage, c);
    }
  }

  /**
   * The averages in a summary row: a cell category averages at least the
   * minimum cell area, fragments average less, and dead cells average below
   * intensity 100.
   */
  lemma FinalStatsBounded(regions: seq<Region>, stage: Stage, c: Category)
    ensures var entry := FinalStats(regions, stage, c);
      && (c != Fragmento && entry.count > 0 ==> entry.avgArea >= MIN_CELL_AREA as real)
      && (c == Fragmento ==> 0.0 <= entry.avgArea < MIN_CELL_AREA as real)
      && (c == CircularMuerta ==> entry.avgBrightness < 100.0)
  {
    if CountOf(regions, stage, c) > 0 {
      if c == Fragmento {
        FragmentAreaBounded(regions, stage);
      } else {
        CellAreaBounded(regions, stage, c);
      }
      if c == CircularMuerta {
        DeadBrightnessBounded(regions, stage);
      }
    }
  }

  /** Fragments average at most 49 pixels. */
  lemma FragmentAreaBounded(regions: seq<Region>, stage: Stage)
    requires CountOf(regions, stage, Fragmento) > 0
    ensures 0.0 <= FinalStats(regions, stage, Fragmento).avgArea <= 49.0
  {
    SumsBounded(regions, stage, Fragmento);
    AverageAtLeast(AreaSumOf(regions, stage, Fragmento), CountOf(regions, stage, Fragmento), 0.0);
    AverageAtMost(AreaSumOf(regions, stage, Fragmento), CountOf(regions, stage, Fragmento), 49.0);
  }

  /** A cell category averages at least the minimum cell area. */
  lemma CellAreaBounded(regions: seq<Region>, stage: Stage, c: Category)
    requires c != Fragmento && CountOf(regions, stage, c) > 0
    ensures FinalStats(regions, stage, c).avgArea >= 50.0
  {
    SumsBounded(regions, stage, c);
    AverageAtLeast(AreaSumOf(regions, stage, c), CountOf(regions, stage, c), 50.0);
  }

  /** Dead round cells average a mean intensity below 100. */
  lemma DeadBrightnessBounded(regions: seq<Region>, stage: Stage)
    requires CountOf(regions, stage, CircularMuerta) > 0
    ensures FinalStats(regions, stage, CircularMuerta).avgBrightness < 100.0
  {
    SumsBounded(regions, stage, CircularMuerta);
    AverageBelow(BrightnessSumOf(regions, stage, CircularMuerta), CountOf(regions, stage, CircularMuerta), 100.0);
  }

  /** The average of a sum of at least lo per counted region is at least lo. */
  lemma AverageAtLeast(sum: real, n: nat, lo: real)
    requires n > 0 && lo * (n as real) <= sum
    ensures lo <= Average(sum, n)
  {
    MeanAtLeast(Average(sum, n), sum, n as real, lo);
  }

  /** The average of a sum of at most hi per counted region is at most hi. */
  lemma AverageAtMost(sum: real, n: nat, hi: real)
    requires n > 0 && sum <= hi * (n as real)
    ensures Average(sum, n) <= hi
  {
    MeanAtMost(Average(sum, n), sum, n as real, hi);
  }

  /** The average of a sum below hi times the count is below hi. */
  lemma AverageBelow(sum: real, n: nat, hi: real)
    requires n > 0 && sum < hi * (n as real)
    ensures Average(sum, n) < hi
  {
    MeanBelow(Average(sum, n), sum, n as real, hi);
  }

  /** A mean of values that are each at least lo is at least lo. */
  lemma MeanAtLeast(avg: real, sum: real, r: real, lo: real)
    requires r > 0.0 && avg * r == sum
    ensures sum >= lo * r ==> avg >= lo
  {
    if avg < lo {
      ScaleMonotone(avg, lo, r);
    }
  }

  /** A mean of values that are each at most hi is at most hi. */
  lemma MeanAtMost(avg: real, sum: real, r: real, hi: real)
    requires r > 0.0 && avg * r == sum
    ensures sum <= hi * r ==> avg <= hi
  {
    if avg > hi {
      ScaleMonotone(hi, avg, r);
    }
  }

  /** A mean of values that are each below hi is below hi. */
  lemma MeanBelow(avg: real, sum: real, r: real, hi: real)
    requires r > 0.0 && avg * r == sum
    ensures sum < hi * r ==> avg < hi
  {
    if avg >= hi {
      if avg > hi {
        ScaleMonotone(hi, avg, r);
      }
    }
  }

  /** Multiplying by a positive number keeps a strict order. */
  lemma ScaleMonotone(x: real, y: real, r: real)
    requires r > 0.0
    ensures x < y ==> x * r < y * r
  {
  }

  /** The summary row a frame gets: for each category, its count and the averages of its regions. */
  function ExpectedRow(frame: string, regions: seq<Region>, stage: Stage): (row: FrameRow)
    ensures row.frame == frame && row.stats.Keys == CATEGORY_SET
    ensures forall c :: c in row.stats ==> row.stats[c].count <= |regions|
  {
    FrameRow(frame, map c | c in CATEGORY_SET :: FinalStats(regions, stage, c))
  }

  /** Sets the three entries of every category to zero, as the pipeline's first loop over the colour table does. */
  method InitialStats() returns (stats: map<Category, CategoryStats>)
    ensures stats.Keys == CATEGORY_SET
    ensures forall c :: c in stats ==> stats[c] == ZERO_STATS
  {
    stats := map[];
    for k := 0 to |ALL_CATEGORIES|
      invariant forall c :: c in stats <==> IndexOf(c) < k
      invariant forall c :: c in stats ==> stats[c] == ZERO_STATS
    {
      var cat := ALL_CATEGORIES[k];
      stats := stats[cat := ZERO_STATS];
    }
  }

  /** Divides each category's sums by its count where the count is positive, as the pipeline's last loop over the colour table does. */
  method AverageStats(sums: map<Category, CategoryStats>) returns (stats: map<Category, CategoryStats>)
    requires sums.Keys == CATEGORY_SET
    ensures stats.Keys == CATEGORY_SET
    ensures forall c :: c in stats ==> stats[c] == Averaged(sums[c])
  {
    stats := sums;
    for k := 0 to |ALL_CATEGORIES|
      invariant stats.Keys == CATEGORY_SET
      invariant forall c :: c in stats ==> stats[c] == if IndexOf(c) < k then Averaged(sums[c]) else sums[c]
    {
      var cat := ALL_CATEGORIES[k];
      var entry := stats[cat];
      if entry.count > 0 {
        var n := entry.count as real;
        stats := stats[cat := CategoryStats(entry.count, entry.avgArea / n, entry.avgBrightness / n)];
      }
    }
  }

  /** Every region is counted in exactly one category: the four counts add up to the number of regions. */
  lemma {:induction false} CountsPartitionRegions(regions: seq<Region>, stage: Stage)
    ensures CountOf(regions, stage, CircularViva) + CountOf(regions, stage, Fija)
          + CountOf(regions, stage, CircularMuerta) + CountOf(regions, stage, Fragmento) == |regions|
  {
    if regions != [] {
      CountsPartitionRegions(regions[..|regions| - 1], stage);
    }
  }

  /** A category's count is how often it occurs among the regions' categories. */
  lemma {:induction false} CountIsMultiplicity(regions: seq<Region>, stage: Stage, c: Category)
    ensures CountOf(regions, stage, c) == multiset(Categorize(regions, stage))[c]
  {
    if regions != [] {
      var prefix := regions[..|regions| - 1];
      CountIsMultiplicity(prefix, stage, c);
      assert Categorize(regions, stage) == Categorize(prefix, stage) + [Classify(regions[|regions| - 1], stage)];
    }
  }

  /** The counted regions of a category are exactly the ones painted into that category's mask. */
  lemma {:induction false} CountIsSizeOfCategory(regions: seq<Region>, stage: Stage, c: Category)
    ensures CountOf(regions, stage, c) == |OfCategory(regions, stage, c)|
  {
    if regions != [] {
      CountIsSizeOfCategory(regions[..|regions| - 1], stage, c);
    }
  }

  /** The fragment count is the number of regions smaller than the minimum area, whatever the stage. */
  lemma {:induction false} FragmentCountIgnoresStage(regions: seq<Region>, stage: Stage, stage': Stage)
    ensures CountOf(regions, stage, Fragmento) == CountOf(regions, stage', Fragmento)
  {
    if regions != [] {
      FragmentCountIgnoresStage(regions[..|regions| - 1], stage, stage');
    }
  }

  /** Nothing is counted in the dead category before the final stage. */
  lemma {:induction false} NoDeadBeforeFinal(regions: seq<Region>, stage: Stage)
    requires stage != Final
    ensures CountOf(regions, stage, CircularMuerta) == 0
    ensures AreaSumOf(regions, stage, CircularMuerta) == 0.0
  {
    if regions != [] {
      NoDeadBeforeFinal(regions[..|regions| - 1], stage);
    }
  }

  /** A summary row has an entry for every category, and that entry is the category's final statistics. */
  lemma {:induction false} ExpectedRowAt(frame: string, regions: seq<Region>, stage: Stage, c: Category)
    ensures ExpectedRow(frame, regions, stage).frame == frame
    ensures c in ExpectedRow(frame, regions, stage).stats
    ensures ExpectedRow(frame, regions, stage).stats[c] == FinalStats(regions, stage, c)
  {
    TableHoldsEveryCategoryOnce(c);
  }

  /** Counting one more region changes only its own category's entries. */
  lemma {:induction false} RunningStatsStep(done: seq<Region>, r: Region, stage: Stage, c: Category)
    ensures RunningStats(done + [r], stage, c) ==
      if Classify(r, stage) == c then
        var s := RunningStats(done, stage, c);
        CategoryStats(s.count + 1, s.avgArea + r.area as real, s.avgBrightness + r.meanIntensity)
      else RunningStats(done, stage, c)
  {
    assert (done + [r])[..|done|] == done;
  }

  /** Adds one region to its category's count and sums, leaving every other category's entries as they are. */
  function Tally(stats: map<Category, CategoryStats>, r: Region, stage: Stage): (after: map<Category, CategoryStats>)
    requires Classify(r, stage) in stats
    ensures after.Keys == stats.Keys
    ensures forall c :: c in stats && c != Classify(r, stage) ==> after[c] == stats[c]
    ensures after[Classify(r, stage)].count == stats[Classify(r, stage)].count + 1
  {
    var cat := Classify(r, stage);
    var e := stats[cat];
    stats[cat := CategoryStats(e.count + 1, e.avgArea + r.area as real, e.avgBrightness + r.meanIntensity)]
  }

  /** Tallying one more region keeps every category's entry equal to its running statistics. */
  lemma {:induction false} TallyStep(done: seq<Region>, r: Region, stage: Stage, stats: map<Category, CategoryStats>)
    requires stats.Keys == CATEGORY_SET
    requires forall c :: c in stats ==> stats[c] == RunningStats(done, stage, c)
    ensures Classify(r, stage) in stats
    ensures Tally(stats, r, stage).Keys == CATEGORY_SET
    ensures forall c :: c in Tally(stats, r, stage) ==> Tally(stats, r, stage)[c] == RunningStats(done + [r], stage, c)
  {
    TableHoldsEveryCategoryOnce(Classify(r, stage));
    var after := Tally(stats, r, stage);
    forall c | c in after ensures after[c] == RunningStats(done + [r], stage, c) {
      RunningStatsStep(done, r, stage, c);
    }
  }

  /** Averaging every category's running sums over all of a frame's regions gives the frame's row. */
  lemma {:induction false} AveragedRowIsExpected(
    frame: string, regions: seq<Region>, stage: Stage, sums: map<Category, CategoryStats>, averaged: map<Category, CategoryStats>)
    requires sums.Keys == averaged.Keys == CATEGORY_SET
    requires forall c :: c in sums ==> sums[c] == RunningStats(regions, stage, c)
    requires forall c :: c in averaged ==> averaged[c] == Averaged(sums[c])
    ensures FrameRow(frame, averaged) == ExpectedRow(frame, regions, stage)
  {
    forall c | c in CATEGORY_SET ensures averaged[c] == FinalStats(regions, stage, c) {
      AveragedRunningIsFinal(regions, stage, c);
    }
  }

  /** Averaging the running sums of a category gives its final entries. */
  lemma {:induction false} AveragedRunningIsFinal(regions: seq<Region>, stage: Stage, c: Category)
    ensures Averaged(RunningStats(regions, stage, c)) == FinalStats(regions, stage, c)
  {
    if CountOf(regions, stage, c) == 0 {
      EmptyCategoryHasZeroSums(regions, stage, c);
    }
  }

  /** Three regions of areas 10, 80 and 200 at the start stage: one fragment and two live round cells. */
  lemma {:induction false} StartFrameExample(r1: Region, r2: Region, r3: Region)
    requires r1.area == 10 && r2.area == 80 && r3.area == 200
    ensures Categorize([r1, r2, r3], Inicio) == [Fragmento, CircularViva, CircularViva]
    ensures CountOf([r1, r2, r3], Inicio, Fragmento) == 1
    ensures CountOf([r1, r2, r3], Inicio, CircularViva) == 2
    ensures CountOf([r1, r2, r3], Inicio, Fija) == 0
  {
    NoDeadBeforeFinal([r1, r2, r3], Inicio);
    CountsPartitionRegions([r1, r2, r3], Inicio);
    var rs := [r1, r2, r3];
    assert rs[..2] == [r1, r2] && [r1, r2][..1] == [r1] && [r1][..0] == [];
    assert Classify(r1, Inicio) == Fragmento;
    assert Classify(r2, Inicio) == CircularViva && Classify(r3, Inicio) == CircularViva;
    assert CountOf([r1], Inicio, Fragmento) == 1 && CountOf([r1], Inicio, CircularViva) == 0;
    assert CountOf([r1, r2], Inicio, Fragmento) == 1 && CountOf([r1, r2], Inicio, CircularViva) == 1;
    assert Categorize([r1], Inicio) == [Fragmento];
    assert Categorize([r1, r2], Inicio) == [Fragmento, CircularViva];
  }
}
