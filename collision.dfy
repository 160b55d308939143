/** Axis-aligned rectangles and the closed-interval intersection test of
    the `collision` package. */
module Collision {

  datatype Rect = Rect(x: real, y: real, width: real, height: real) {

    /** The right edge. */
    function MaxX(): (m: real)
      ensures m - width == x
    {
      width + x
    }

    /** The bottom edge. */
    function MaxY(): (m: real)
      ensures m - height == y
    {
      height + y
    }

    /** Overlap on both axes, edges included. */
    predicate Intersects(other: Rect) {
      && x <= other.MaxX()
      && y <= other.MaxY()
      && other.x <= MaxX()
      && other.y <= MaxY()
    }

    /** Whether the point (px, py) lies in the rectangle, edges included. */
    predicate Contains(px: real, py: real) {
      x <= px <= MaxX() && y <= py <= MaxY()
    }
  }

  /** collision.NewRect. */
  function NewRect(x: real, y: real, w: real, h: real): (r: Rect)
    ensures r.x == x && r.y == y && r.width == w && r.height == h
    ensures r.MaxX() == x + w && r.MaxY() == y + h
  {
    Rect(x, y, w, h)
  }

  /** The test does not depend on which rectangle is the receiver. */
  lemma IntersectsSymmetric(a: Rect, b: Rect)
    ensures a.Intersects(b) <==> b.Intersects(a)
  {
  }

  /** A rectangle of non-negative size intersects itself. */
  lemma IntersectsSelf(r: Rect)
    requires r.width >= 0.0 && r.height >= 0.0
    ensures r.Intersects(r)
  {
  }

  /** Rectangles that only share an edge intersect: {0,0,10,10} and
      {10,0,10,10}. */
  lemma TouchingEdgesIntersect()
    ensures NewRect(0.0, 0.0, 10.0, 10.0).Intersects(NewRect(10.0, 0.0, 10.0, 10.0))
    ensures !NewRect(0.0, 0.0, 10.0, 10.0).Intersects(NewRect(20.0, 20.0, 10.0, 10.0))
  {
  }

  /** A rectangle lying strictly beyond one edge of another does not
      intersect it. */
  lemma SeparatedDoNotIntersect(r: Rect, other: Rect)
    requires || other.x > r.MaxX() || other.y > r.MaxY()
             || r.x > other.MaxX() || r.y > other.MaxY()
    ensures !r.Intersects(other) && !other.Intersects(r)
  {
  }

  /** For rectangles of non-negative size, the test holds exactly when
      some point lies in both. */
  lemma IntersectsIffCommonPoint(a: Rect, b: Rect)
    requires a.width >= 0.0 && a.height >= 0.0 && b.width >= 0.0 && b.height >= 0.0
    ensures a.Intersects(b) <==> exists px: real, py: real :: a.Contains(px, py) && b.Contains(px, py)
  {
    if a.Intersects(b) {
      var px := if a.x < b.x then b.x else a.x;
      var py := if a.y < b.y then b.y else a.y;
      assert a.Contains(px, py) && b.Contains(px, py);
    }
  }

  /** A rectangle lying within another can only be hit by what hits the
      other. */
  lemma InsideHitsOutside(inner: Rect, outer: Rect, r: Rect)
    requires outer.x <= inner.x && inner.MaxX() <= outer.MaxX()
    requires outer.y <= inner.y && inner.MaxY() <= outer.MaxY()
    ensures r.Intersects(inner) ==> r.Intersects(outer)
    ensures inner.Intersects(r) ==> outer.Intersects(r)
  {
  }
}
