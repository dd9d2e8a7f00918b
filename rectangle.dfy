/** Axis-aligned integer rectangles, the shape of a dungeon room. */
module Rectangles {

  /** Rust's `/` on i32 divides toward zero; Dafny's `/` is Euclidean.
      This is `n / 2` as Rust computes it. */
  function HalfTowardZero(n: int): (h: int)
    ensures n >= 0 ==> 0 <= n - 2 * h <= 1
    ensures n < 0 ==> -1 <= n - 2 * h <= 0
  {
    if n >= 0 then n / 2 else -((-n) / 2)
  }

  /** A rectangle from its upper-left corner (upperX, upperY) to its
      lower-right corner (lowerX, lowerY); both corners belong to it. */
  datatype Rectangle = Rectangle(upperX: int, upperY: int, lowerX: int, lowerY: int)
  {
    /** The corners are in order: built from a non-negative width and height. */
    predicate WellFormed() {
      upperX <= lowerX && upperY <= lowerY
    }

    /** The integer point (x, y) lies in the rectangle, edges included. */
    predicate Contains(x: int, y: int) {
      upperX <= x <= lowerX && upperY <= y <= lowerY
    }

    /** `intersect`: the projections overlap on both axes, bounds inclusive. */
    predicate Intersect(other: Rectangle) {
      upperX <= other.lowerX && lowerX >= other.upperX && upperY <= other.lowerY && lowerY >= other.upperY
    }

    /** `center`: the midpoint of each axis, halved toward zero as Rust does. */
    function Center(): (c: (int, int))
      ensures WellFormed() ==> Contains(c.0, c.1)
      ensures upperX + lowerX >= 0 ==> 0 <= (upperX + lowerX) - 2 * c.0 <= 1
      ensures upperY + lowerY >= 0 ==> 0 <= (upperY + lowerY) - 2 * c.1 <= 1
    {
      (HalfTowardZero(upperX + lowerX), HalfTowardZero(upperY + lowerY))
    }
  }

  /** `Rectangle::new(x, y, width, height)`: corner (x, y), extent width × height. */
  function New(x: int, y: int, width: int, height: int): (r: Rectangle)
    ensures r.upperX == x && r.upperY == y
    ensures r.lowerX - r.upperX == width && r.lowerY - r.upperY == height
    ensures r.WellFormed() <==> width >= 0 && height >= 0
  {
    Rectangle(x, y, x + width, y + height)
  }

  /** Overlap does not depend on which rectangle asks. */
  lemma IntersectSymmetric(a: Rectangle, b: Rectangle)
    ensures a.Intersect(b) == b.Intersect(a)
  {
  }

  /** A rectangle built with a non-negative width and height overlaps itself. */
  lemma IntersectReflexive(x: int, y: int, width: int, height: int)
    requires width >= 0 && height >= 0
    ensures New(x, y, width, height).Intersect(New(x, y, width, height))
  {
  }

  /** Bounds are inclusive: rectangles that only share a vertical edge still intersect. */
  lemma SharedEdgeIntersects(a: Rectangle, b: Rectangle)
    requires a.WellFormed() && b.WellFormed()
    requires a.lowerX == b.upperX
    requires a.upperY <= b.lowerY && a.lowerY >= b.upperY
    ensures a.Intersect(b) && b.Intersect(a)
  {
  }

  /** A gap on either axis rules out overlap, whichever rectangle asks. */
  lemma SeparatedDoNotIntersect(a: Rectangle, b: Rectangle)
    requires a.lowerX < b.upperX || a.lowerY < b.upperY
    ensures !a.Intersect(b) && !b.Intersect(a)
  {
  }

  /** For well-formed rectangles, `intersect` holds exactly when some
      integer point lies in both. */
  lemma IntersectIffCommonPoint(a: Rectangle, b: Rectangle)
    requires a.WellFormed() && b.WellFormed()
    ensures a.Intersect(b) <==> exists x, y :: a.Contains(x, y) && b.Contains(x, y)
  {
    if a.Intersect(b) {
      var x := if a.upperX < b.upperX then b.upperX else a.upperX;
      var y := if a.upperY < b.upperY then b.upperY else a.upperY;
      assert a.Contains(x, y) && b.Contains(x, y);
    }
  }
}
