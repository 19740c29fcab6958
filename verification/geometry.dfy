/**
 Plane geometry of the layout: points, sizes and rectangles with real
 coordinates, and the containment tests the layout and the drag controller
 rely on.

 A rectangle is stored as written (an origin and a size whose components may
 be negative). Every query standardises it first, so a rectangle of negative
 width covers the interval to the left of its origin.
 */
module Geometry {

  datatype Point = Point(x: real, y: real)

  datatype Size = Size(width: real, height: real)

  datatype Rect = Rect(origin: Point, size: Size)

  function Abs(v: real): real {
    if v < 0.0 then -v else v
  }

  function MinX(r: Rect): real {
    if r.size.width < 0.0 then r.origin.x + r.size.width else r.origin.x
  }

  function MaxX(r: Rect): real {
    if r.size.width < 0.0 then r.origin.x else r.origin.x + r.size.width
  }

  function MinY(r: Rect): real {
    if r.size.height < 0.0 then r.origin.y + r.size.height else r.origin.y
  }

  function MaxY(r: Rect): real {
    if r.size.height < 0.0 then r.origin.y else r.origin.y + r.size.height
  }

  /** The width a rectangle reports: the extent of its standardised form. */
  function Width(r: Rect): (w: real)
    ensures w >= 0.0
    ensures w == MaxX(r) - MinX(r)
  {
    Abs(r.size.width)
  }

  /** A square with the given origin and side. */
  function Square(x: real, y: real, side: real): Rect {
    Rect(Point(x, y), Size(side, side))
  }

  /** Point containment: minimum edges belong to the rectangle, maximum edges do not. */
  predicate ContainsPoint(r: Rect, p: Point) {
    MinX(r) <= p.x < MaxX(r) && MinY(r) <= p.y < MaxY(r)
  }

  /** Rectangle containment: `inner` lies within `outer`, edges included. */
  predicate ContainsRect(outer: Rect, inner: Rect) {
    && MinX(outer) <= MinX(inner) && MaxX(inner) <= MaxX(outer)
    && MinY(outer) <= MinY(inner) && MaxY(inner) <= MaxY(outer)
  }

  /** The interiors of two rectangles meet. */
  predicate Overlaps(a: Rect, b: Rect) {
    && MinX(a) < MaxX(b) && MinX(b) < MaxX(a)
    && MinY(a) < MaxY(b) && MinY(b) < MaxY(a)
  }

  /** `r` with its width reduced by `delta`, origin kept. */
  function ShrinkWidth(r: Rect, delta: real): Rect {
    Rect(r.origin, Size(r.size.width - delta, r.size.height))
  }

  /** Containment is reflexive, and a rectangle narrowed by any positive
      amount up to its width no longer contains the original. */
  lemma ContainsRectExactness(r: Rect, delta: real)
    requires r.size.width >= delta > 0.0
    ensures ContainsRect(r, r)
    ensures !ContainsRect(ShrinkWidth(r, delta), r)
  {
  }
}
