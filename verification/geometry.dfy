/** Canvas-space points, sizes and axis-aligned rectangles. Coordinates are
    `real`, an idealisation of JavaScript's IEEE-754 doubles. */
module Geometry {

  datatype Point = Point(x: real, y: real)

  datatype Size = Size(w: real, h: real)

  /** A rectangle given by its top-left corner and its extent. */
  datatype Rect = Rect(x: real, y: real, w: real, h: real)

  function Add(a: Point, b: Point): Point {
    Point(a.x + b.x, a.y + b.y)
  }

  function Sub(a: Point, b: Point): Point {
    Point(a.x - b.x, a.y - b.y)
  }

  /** The footprint of an item of size `size` whose top-left corner is `pos`. */
  function BoxAt(pos: Point, size: Size): Rect {
    Rect(pos.x, pos.y, size.w, size.h)
  }

  /** Membership in the closed rectangle [x, x+w] x [y, y+h]. */
  predicate ClosedContains(r: Rect, p: Point) {
    r.x <= p.x <= r.x + r.w && r.y <= p.y <= r.y + r.h
  }

  /** `inner` lies within `outer` (both read as closed rectangles). */
  predicate Inside(inner: Rect, outer: Rect) {
    && outer.x <= inner.x
    && inner.x + inner.w <= outer.x + outer.w
    && outer.y <= inner.y
    && inner.y + inner.h <= outer.y + outer.h
  }

  predicate Positive(r: Rect) {
    r.w > 0.0 && r.h > 0.0
  }
}
