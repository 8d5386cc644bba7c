/** Minimal point and axis-aligned box values that the tiling works on.
    Coordinates are exact integers in a fixed unit (for instance
    micro-degrees), so no floating-point rounding takes place. */
module Aabb {

  /** A planar (x, y) coordinate pair, e.g. (longitude, latitude). */
  datatype Point = Point(x: int, y: int)

  /** An axis-aligned box given by its min and max corners. */
  datatype Box = Box(minx: int, miny: int, maxx: int, maxy: int)

  /** A box whose min corner is not above or right of its max corner. */
  predicate WellFormed(b: Box)
  {
    b.minx <= b.maxx && b.miny <= b.maxy
  }

  /** Inclusive containment: a point on an edge of the box is inside it. */
  predicate Contains(b: Box, p: Point)
  {
    b.minx <= p.x <= b.maxx && b.miny <= p.y <= b.maxy
  }

  /** Inclusive intersection: boxes that only touch along an edge or at a corner intersect. */
  predicate Intersects(a: Box, b: Box)
  {
    a.minx <= b.maxx && b.minx <= a.maxx && a.miny <= b.maxy && b.miny <= a.maxy
  }

  /** The centre of a box, halving rounded down: it is as far from the
      max edge as from the min edge or one unit nearer the min edge, and
      lies inside every well-formed box. */
  function Center(b: Box): (c: Point)
    ensures WellFormed(b) ==> Contains(b, c)
    ensures 0 <= (b.maxx - c.x) - (c.x - b.minx) <= 1
    ensures 0 <= (b.maxy - c.y) - (c.y - b.miny) <= 1
  {
    Point((b.minx + b.maxx) / 2, (b.miny + b.maxy) / 2)
  }
}
