/** Points of the plane (geometry2d/Point.java). */
module Points {
  import opened RealMath

  /** A point; its accessors x() and y() are the datatype's destructors. */
  datatype Point = Point(x: real, y: real)

  const ORIGIN: Point := Point(0.0, 0.0)

  /** The squared distance to the origin, Math.pow(x, 2) + Math.pow(y, 2). */
  function SquaredNorm(p: Point): (n: real)
    ensures 0.0 <= n
    ensures n == 0.0 ==> p == ORIGIN
  {
    SqSign(p.x);
    SqSign(p.y);
    Sq(p.x) + Sq(p.y)
  }

  /** r(): the distance to the origin, the non-negative root of the squared norm. */
  function R(m: Transcendental, p: Point): (r: real)
    ensures SqrtLaw(m.sqrt) ==> 0.0 <= r && Sq(r) == Sq(p.x) + Sq(p.y)
  {
    m.sqrt(SquaredNorm(p))
  }

  /** The radius vanishes at the origin and only there. */
  lemma RadiusZeroIffOrigin(m: Transcendental, p: Point)
    requires SqrtLaw(m.sqrt)
    ensures R(m, p) == 0.0 <==> p == ORIGIN
  {
    SqSign(R(m, p));
    if p == ORIGIN {
      SqInjective(R(m, p), 0.0);
    } else {
      assert SquaredNorm(p) != 0.0;
    }
  }
}
