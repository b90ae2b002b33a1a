/**
 * Points of the drawing overlay. `CGFloat` coordinates are modelled by `real`,
 * so the floating-point rounding of the source is not part of this model.
 */
module Geometry {

  datatype Point = Point(x: real, y: real)

  /** `CGPoint.midPoint(p1:p2:)`: the point halfway between `p1` and `p2`. */
  function MidPoint(p1: Point, p2: Point): (m: Point)
    ensures m.x - p1.x == p2.x - m.x
    ensures m.y - p1.y == p2.y - m.y
  {
    Point((p1.x + p2.x) / 2.0, (p1.y + p2.y) / 2.0)
  }
}
