/** Integer rectangles with Go's image.Rectangle semantics: `min` is inclusive,
    `max` exclusive, and a rectangle with no pixel is empty. */
module Geometry {
  import opened Util

  datatype Point = Point(x: int, y: int)

  datatype Rect = Rect(min: Point, max: Point)

  /** The zero rectangle, image.Rectangle{}. */
  const ZeroRect := Rect(Point(0, 0), Point(0, 0))

  /** image.Rect: a rectangle from two corners, swapping coordinates where
      needed so that `min` is never past `max`. */
  function MakeRect(x0: int, y0: int, x1: int, y1: int): (r: Rect)
    ensures r.min.x == Min(x0, x1) && r.max.x == Max(x0, x1)
    ensures r.min.y == Min(y0, y1) && r.max.y == Max(y0, y1)
  {
    var lowX := if x0 > x1 then x1 else x0;
    var highX := if x0 > x1 then x0 else x1;
    var lowY := if y0 > y1 then y1 else y0;
    var highY := if y0 > y1 then y0 else y1;
    Rect(Point(lowX, lowY), Point(highX, highY))
  }

  function Dx(r: Rect): int
  {
    r.max.x - r.min.x
  }

  function Dy(r: Rect): int
  {
    r.max.y - r.min.y
  }

  predicate Empty(r: Rect)
  {
    r.min.x >= r.max.x || r.min.y >= r.max.y
  }

  /** Rectangle.Overlaps: both non-empty and strictly interleaved on both axes. */
  predicate Overlaps(r: Rect, s: Rect)
  {
    && !Empty(r) && !Empty(s)
    && r.min.x < s.max.x && s.min.x < r.max.x
    && r.min.y < s.max.y && s.min.y < r.max.y
  }

  /** The pixel (px, py) lies inside `r`. */
  predicate HasPixel(r: Rect, px: int, py: int)
  {
    r.min.x <= px < r.max.x && r.min.y <= py < r.max.y
  }

  function Translate(r: Rect, dx: int, dy: int): (t: Rect)
    ensures Dx(t) == Dx(r) && Dy(t) == Dy(r)
    ensures forall px, py :: HasPixel(r, px, py) <==> HasPixel(t, px + dx, py + dy)
  {
    Rect(Point(r.min.x + dx, r.min.y + dy), Point(r.max.x + dx, r.max.y + dy))
  }

  /** Two rectangles overlap exactly when some pixel lies in both. */
  lemma OverlapsIffSharedPixel(r: Rect, s: Rect)
    ensures Overlaps(r, s) <==> exists px, py :: HasPixel(r, px, py) && HasPixel(s, px, py)
  {
    if Overlaps(r, s) {
      var px := Max(r.min.x, s.min.x);
      var py := Max(r.min.y, s.min.y);
      assert HasPixel(r, px, py) && HasPixel(s, px, py);
    }
  }

  /** An empty rectangle, the zero rectangle among them, overlaps nothing. */
  lemma EmptyOverlapsNothing(r: Rect, s: Rect)
    requires Empty(r)
    ensures !Overlaps(r, s) && !Overlaps(s, r)
  {
  }
}
