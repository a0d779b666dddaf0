/**
 * The value part of a paisl `Circle`: centre, radius magnitude, orientation
 * sign, rotation annotation and subdivision index.  Every orientation copy
 * (`inverse`, `inner`, `outer`, `shrinktopoint`, `grow`) goes back through
 * the constructor's normalisation, modelled here by `Make`.
 */
module Shapes {

  /**
   * `Circle.i`: no index, the position `[index, count]` of a child among the
   * siblings of a radial subdivision, or the pair `[i, j]` that `grow`
   * builds from the previous index and the never-assigned field `j`.
   */
  datatype SubIndex = NoIndex | At(index: int, count: int) | Grown(previous: SubIndex)

  /**
   * A circle's geometry: `r` is the radius magnitude and `s` (+1 or -1) the
   * orientation, so that `r * s` is the signed radius the tangency solver
   * reads; `a` is the rotation annotation used only for rendering.
   */
  datatype Shape = Shape(x: real, y: real, r: real, s: real, a: real, i: SubIndex)
  {
    /** What the constructor guarantees of every circle it builds. */
    predicate Normal() {
      r >= 0.0 && (s == 1.0 || s == -1.0) && (r == 0.0 ==> s == 1.0)
    }

    /** `r * s`, the radius with its orientation. */
    function SignedRadius(): real {
      r * s
    }

    /** `inverse()`: the same circle with the opposite orientation. */
    function Inverse(): (c: Shape)
      ensures c.Normal()
      ensures c.x == x && c.y == y && c.a == a && c.i == i
      ensures c.SignedRadius() == -SignedRadius()
    {
      Make(x, y, r * s * -1.0, a, i)
    }

    /** `inner()`: the circle oriented for internal tangency. */
    function Inner(): (c: Shape)
      ensures c.Normal()
      ensures c.x == x && c.y == y && c.a == a && c.i == i
      ensures r >= 0.0 ==> c.r == r
      ensures r > 0.0 ==> c.s == -1.0
    {
      Make(x, y, r * -1.0, a, i)
    }

    /** `outer()`: the circle oriented for external tangency. */
    function Outer(): (c: Shape)
      ensures c.Normal()
      ensures c.x == x && c.y == y && c.a == a && c.i == i
      ensures r >= 0.0 ==> c.r == r && c.s == 1.0
    {
      Make(x, y, r, a, i)
    }

    /** `shrinktopoint()`: the centre as a circle of radius zero. */
    function ShrinkToPoint(): (c: Shape)
      ensures c.Normal()
      ensures c.x == x && c.y == y && c.a == a && c.i == i
      ensures c.r == 0.0 && c.s == 1.0
    {
      Make(x, y, 0.0, a, i)
    }

    /** `grow(factor)`: the radius scaled by `|factor|`, the orientation flipped by a negative factor. */
    function Grow(factor: real): (c: Shape)
      ensures c.Normal()
      ensures c.x == x && c.y == y && c.a == a && c.i == Grown(i)
      ensures c.SignedRadius() == SignedRadius() * factor
    {
      Make(x, y, r * factor * s, a, Grown(i))
    }

    /**
     * `overlaps(other)`: the distance between the centres is below the sum
     * of the radii.  With both radii non-negative, `sqrt(d2) < r1 + r2`
     * holds exactly when `d2 < (r1 + r2)^2`, which is the form used here.
     */
    function Overlaps(other: Shape): (o: bool)
      ensures x == other.x && y == other.y && r + other.r > 0.0 ==> o
      ensures r + other.r == 0.0 ==> !o
    {
      var dx, dy := other.x - x, other.y - y;
      var sum := r + other.r;
      if dx == 0.0 && dy == 0.0 && sum > 0.0 then
        ZeroBelowSquare(dx * dx + dy * dy, sum);
        dx * dx + dy * dy < sum * sum
      else
        dx * dx + dy * dy < sum * sum
    }
  }

  /** A positive number has a positive square. */
  lemma PositiveSquare(v: real)
    requires v > 0.0
    ensures 0.0 < v * v
  {
    assert v * v > 0.0 * v;
  }

  /** Zero lies below the square of a positive number. */
  lemma ZeroBelowSquare(d: real, v: real)
    requires d == 0.0 && v > 0.0
    ensures d < v * v
  {
    PositiveSquare(v);
    calc {
      d;
    ==
      0.0;
    <
      v * v;
    }
  }

  /**
   * The constructor `new Circle(x, y, r, a, ..., i)` for the geometric
   * fields: the stored radius is `|r|` and the sign of `r` goes to `s`.
   */
  function Make(x: real, y: real, signedR: real, a: real, i: SubIndex): (c: Shape)
    ensures c.Normal()
    ensures c.x == x && c.y == y && c.a == a && c.i == i
    ensures c.r == (if signedR < 0.0 then -signedR else signedR)
    ensures c.s == -1.0 <==> signedR < 0.0
    ensures c.SignedRadius() == signedR
  {
    Shape(x, y, if signedR < 0.0 then -signedR else signedR, if signedR < 0.0 then -1.0 else 1.0, a, i)
  }

  // ---------------------------------------------------------------------
  // Properties of the orientation copies
  // ---------------------------------------------------------------------

  /** Inverting twice gives back every circle the constructor can build. */
  lemma InverseInvolution(c: Shape)
    requires c.Normal()
    ensures c.Inverse().Inverse() == c
  {
  }

  /**
   * Forcing the orientation is idempotent and forgets the previous
   * orientation: `inner(outer(c)) == inner(c)` and `outer(inner(c)) == outer(c)`.
   */
  lemma OrientationIdempotent(c: Shape)
    requires c.Normal()
    ensures c.Outer().Inner() == c.Inner() && c.Inner().Inner() == c.Inner()
    ensures c.Inner().Outer() == c.Outer() && c.Outer().Outer() == c.Outer()
    ensures c.Outer() == c <==> c.s == 1.0
  {
  }

  /** Inverting an outer circle gives its inner copy and vice versa; a point stays outer. */
  lemma InverseSwapsOrientation(c: Shape)
    requires c.Normal()
    ensures c.Outer().Inverse() == c.Inner()
    ensures c.r > 0.0 ==> c.Inner().Inverse() == c.Outer()
    ensures c.r == 0.0 ==> c.Inverse() == c && c.Inner() == c
  {
  }

  /**
   * The squared form agrees with the source's `Math.sqrt(dx*dx + dy*dy) < r1 + r2`:
   * for `dist`, the non-negative square root of the squared centre distance,
   * the circles overlap exactly when `dist` is below the sum of the radii.
   */
  lemma OverlapsByDistance(c: Shape, d: Shape, dist: real)
    requires c.Normal() && d.Normal()
    requires dist >= 0.0 && dist * dist == (d.x - c.x) * (d.x - c.x) + (d.y - c.y) * (d.y - c.y)
    ensures c.Overlaps(d) <==> dist < c.r + d.r
  {
    var sum := c.r + d.r;
    assert c.Overlaps(d) == (dist * dist < sum * sum);
    SquareMonotone(dist, sum);
  }

  /** For non-negative `u` and `v`, `u < v` exactly when `u * u < v * v`. */
  lemma SquareMonotone(u: real, v: real)
    requires u >= 0.0 && v >= 0.0
    ensures u < v <==> u * u < v * v
  {
    var uu, uv, vv := u * u, u * v, v * v;
    if u < v {
      assert uu <= uv;
      assert uv < vv;
    } else {
      assert vv <= uv;
      assert uv <= uu;
    }
  }

  /** Overlap does not depend on the order of the two circles. */
  lemma OverlapsSymmetric(c: Shape, d: Shape)
    ensures c.Overlaps(d) == d.Overlaps(c)
  {
  }
}
