/** The optional value used wherever the model looks something up that may be absent. */
module Options {
  datatype Option<+T> = None | Some(value: T)
}

/**
 * The fixed category table of the examination pipeline: the four object
 * categories, the three temporal stages, and the BGR colour bound to each
 * category.
 */
module Categories {
  import opened Options

  /** One 8-bit channel value. */
  type Byte = x: int | 0 <= x < 256

  /** A 3-channel pixel in OpenCV's blue-green-red order. */
  datatype Color = Color(b: Byte, g: Byte, r: Byte)

  /** The value of every pixel of a freshly zeroed canvas. */
  const BLACK := Color(0, 0, 0)

  datatype Category = CircularViva | Fija | CircularMuerta | Fragmento

  datatype Stage = Inicio | Medio | Final

  /** The keys of the colour table, in the table's (insertion) order. */
  const ALL_CATEGORIES: seq<Category> := [CircularViva, Fija, CircularMuerta, Fragmento]

  /** The position of a category among the table's keys. */
  function IndexOf(c: Category): (i: nat)
    ensures i < |ALL_CATEGORIES| && ALL_CATEGORIES[i] == c
  {
    match c
    case CircularViva => 0
    case Fija => 1
    case CircularMuerta => 2
    case Fragmento => 3
  }

  /** The table's keys as a set. */
  const CATEGORY_SET: set<Category> := {CircularViva, Fija, CircularMuerta, Fragmento}

  /** The colour-table key of a category. */
  function Name(c: Category): string
  {
    match c
    case CircularViva => "Circular_viva"
    case Fija => "Fija"
    case CircularMuerta => "Circular_muerta"
    case Fragmento => "Fragmento"
  }

  /** The colour the table binds to a category. */
  function ColorOf(c: Category): (col: Color)
    ensures col != BLACK
  {
    match c
    case CircularViva => Color(0, 255, 0)
    case Fija => Color(255, 255, 0)
    case CircularMuerta => Color(0, 0, 255)
    case Fragmento => Color(255, 0, 255)
  }

  /** Reads the category back from a painted pixel; None for a colour the table does not hold. */
  function CategoryOfColor(col: Color): (c: Option<Category>)
    ensures c.Some? ==> ColorOf(c.value) == col
  {
    if col == Color(0, 255, 0) then Some(CircularViva)
    else if col == Color(255, 255, 0) then Some(Fija)
    else if col == Color(0, 0, 255) then Some(CircularMuerta)
    else if col == Color(255, 0, 255) then Some(Fragmento)
    else None
  }

  /** Every category is a key of the table exactly once. */
  lemma TableHoldsEveryCategoryOnce(c: Category)
    ensures c in ALL_CATEGORIES && c in CATEGORY_SET
    ensures forall i :: 0 <= i < |ALL_CATEGORIES| && ALL_CATEGORIES[i] == c ==> i == IndexOf(c)
  {
  }

  /** Painting with the table is lossless: each category's colour reads back as that category. */
  lemma ColorRoundTrip(c: Category)
    ensures CategoryOfColor(ColorOf(c)) == Some(c)
  {
  }

  /** No two categories share a colour or a key. */
  lemma TableIsInjective(c1: Category, c2: Category)
    requires c1 != c2
    ensures ColorOf(c1) != ColorOf(c2)
    ensures Name(c1) != Name(c2)
  {
    ColorRoundTrip(c1);
    ColorRoundTrip(c2);
  }

  /** The background colour of a zeroed canvas reads back as no category. */
  lemma BlackIsNoCategory()
    ensures CategoryOfColor(BLACK) == None
    ensures forall c :: ColorOf(c) != BLACK
  {
  }
}
