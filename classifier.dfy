/**
 * The per-object classifier of the examination pipeline: a region's
 * features and the frame's temporal stage decide its category.
 */
module Classifier {
  import opened Categories

  /** A pixel position (row, column). */
  type Pixel = (int, int)

  /**
   * What the feature extractor reports for one labelled component: its pixel
   * count, its boundary length, the mean source intensity over it, and the
   * positions of its pixels.
   */
  datatype Region = Region(area: nat, perimeter: real, meanIntensity: real, coords: seq<Pixel>)

  /** The value of numpy's pi, taken as a real number. */
  const PI: real := 3.141592653589793

  /** The smallest area a region must have not to be a fragment. */
  const MIN_CELL_AREA: nat := 50

  /** The perimeter used in the circularity, floored so that it is never zero. */
  function SafePerimeter(perimeter: real): (p: real)
    ensures p > 0.0
    ensures perimeter > 0.0 ==> p == perimeter
    ensures perimeter <= 0.0 ==> p == 1.0
  {
    if perimeter > 0.0 then perimeter else 1.0
  }

  /** 4 * pi * area / perimeter^2, with the floored perimeter (divided by it twice). */
  function Circularity(r: Region): (circ: real)
    ensures circ >= 0.0
    ensures circ * SafePerimeter(r.perimeter) * SafePerimeter(r.perimeter) == 4.0 * PI * (r.area as real)
  {
    var p := SafePerimeter(r.perimeter);
    4.0 * PI * (r.area as real) / p / p
  }

  /** The late-stage test for a dead round cell: round enough and dark enough. */
  predicate LooksDead(r: Region)
    ensures LooksDead(r) ==> r.area > 0 && r.meanIntensity < 100.0
  {
    Circularity(r) > 0.8 && r.meanIntensity < 100.0
  }

  /** The decision rule, first match wins: size, then stage, then shape and brightness. */
  function Classify(r: Region, stage: Stage): (c: Category)
    ensures c in ALL_CATEGORIES
    ensures c == Fragmento <==> r.area < MIN_CELL_AREA
    ensures c == CircularViva <==> r.area >= MIN_CELL_AREA && stage == Inicio
    ensures c == CircularMuerta <==> r.area >= MIN_CELL_AREA && stage == Final && LooksDead(r)
    ensures c == Fija <==> r.area >= MIN_CELL_AREA && (stage == Medio || (stage == Final && !LooksDead(r)))
  {
    if r.area < MIN_CELL_AREA then Fragmento
    else match stage
      case Inicio => CircularViva
      case Medio => Fija
      case Final => if LooksDead(r) then CircularMuerta else Fija
  }

  /** The classification depends only on area, perimeter, mean intensity and stage, never on the pixel positions. */
  lemma ClassifyIgnoresCoords(r: Region, coords: seq<Pixel>, stage: Stage)
    ensures Classify(r.(coords := coords), stage) == Classify(r, stage)
  {
  }

  /** A region of area 500, perimeter 79.5 and mean intensity 50 in the final stage is a dead round cell. */
  lemma RoundDarkLateRegionIsDead(coords: seq<Pixel>)
    ensures Classify(Region(500, 79.5, 50.0, coords), Final) == CircularMuerta
  {
    var r := Region(500, 79.5, 50.0, coords);
    assert SafePerimeter(79.5) == 79.5;
    assert 79.5 * 79.5 == 6320.25;
    assert 4.0 * PI * 500.0 > 0.8 * 6320.25;
    assert Circularity(r) > 0.8;
  }

  /** A non-positive perimeter is treated as 1, so a large region is then always round enough. */
  lemma ZeroPerimeterIsRound(r: Region)
    requires r.perimeter <= 0.0 && r.area >= MIN_CELL_AREA
    ensures Circularity(r) == 4.0 * PI * (r.area as real)
    ensures Circularity(r) > 0.8
  {
  }
}
