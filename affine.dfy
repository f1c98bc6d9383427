/** Affine maps of the plane (geometry2d/AffineTransformation.java). */
module AffineTransformations {
  import opened RealMath
  import opened Points

  /**
   * The map (x, y) |-> (a*x + b*y + c, d*x + e*y + f), the top two rows of a
   * 3x3 homogeneous matrix.
   */
  datatype AffineTransformation = AffineTransformation(a: real, b: real, c: real, d: real, e: real, f: real)

  const IDENTITY: AffineTransformation := AffineTransformation(1.0, 0.0, 0.0, 0.0, 1.0, 0.0)

  /** transformPoint: the image of p. */
  function TransformPoint(t: AffineTransformation, p: Point): (q: Point)
    ensures q.x == t.a * p.x + t.b * p.y + t.c
    ensures q.y == t.d * p.x + t.e * p.y + t.f
  {
    Point(t.a * p.x + t.b * p.y + t.c, t.d * p.x + t.e * p.y + t.f)
  }

  /** translationX: the horizontal offset, which is where the origin goes. */
  function TranslationX(t: AffineTransformation): (dx: real)
    ensures dx == TransformPoint(t, ORIGIN).x
  {
    t.c
  }

  /** translationY: the vertical offset, which is where the origin goes. */
  function TranslationY(t: AffineTransformation): (dy: real)
    ensures dy == TransformPoint(t, ORIGIN).y
  {
    t.f
  }

  /** newTranslation: moves every point by (dx, dy). */
  function NewTranslation(dx: real, dy: real): (t: AffineTransformation)
    ensures forall p {:trigger TransformPoint(t, p)} :: TransformPoint(t, p) == Point(p.x + dx, p.y + dy)
    ensures TranslationX(t) == dx && TranslationY(t) == dy
  {
    AffineTransformation(1.0, 0.0, dx, 0.0, 1.0, dy)
  }

  /** newRotation: the rotation by theta radians about the origin. */
  function NewRotation(m: Transcendental, theta: real): (t: AffineTransformation)
    ensures TransformPoint(t, ORIGIN) == ORIGIN
    ensures forall p {:trigger TransformPoint(t, p)} :: TransformPoint(t, p) ==
                        Point(m.cos(theta) * p.x - m.sin(theta) * p.y, m.sin(theta) * p.x + m.cos(theta) * p.y)
  {
    AffineTransformation(m.cos(theta), -m.sin(theta), 0.0, m.sin(theta), m.cos(theta), 0.0)
  }

  /** newScaling: stretches by sx along the abscissa and by sy along the ordinate. */
  function NewScaling(sx: real, sy: real): (t: AffineTransformation)
    ensures forall p {:trigger TransformPoint(t, p)} :: TransformPoint(t, p) == Point(sx * p.x, sy * p.y)
  {
    AffineTransformation(sx, 0.0, 0.0, 0.0, sy, 0.0)
  }

  /** newShearX: the horizontal shear (x, y) |-> (x + s*y, y). */
  function NewShearX(s: real): (t: AffineTransformation)
    ensures forall p {:trigger TransformPoint(t, p)} :: TransformPoint(t, p) == Point(p.x + s * p.y, p.y)
  {
    AffineTransformation(1.0, s, 0.0, 0.0, 1.0, 0.0)
  }

  /** newShearY: the vertical shear (x, y) |-> (x, s*x + y). */
  function NewShearY(s: real): (t: AffineTransformation)
    ensures forall p {:trigger TransformPoint(t, p)} :: TransformPoint(t, p) == Point(p.x, s * p.x + p.y)
  {
    ShearYMaps(s);
    AffineTransformation(1.0, 0.0, 0.0, s, 1.0, 0.0)
  }

  lemma ShearYMaps(s: real)
    ensures forall p {:trigger TransformPoint(AffineTransformation(1.0, 0.0, 0.0, s, 1.0, 0.0), p)} ::
              TransformPoint(AffineTransformation(1.0, 0.0, 0.0, s, 1.0, 0.0), p) == Point(p.x, s * p.x + p.y)
  {
    forall p: Point
      ensures TransformPoint(AffineTransformation(1.0, 0.0, 0.0, s, 1.0, 0.0), p) == Point(p.x, s * p.x + p.y)
    {
      ShearYPoint(s, p);
    }
  }

  lemma ShearYPoint(s: real, p: Point)
    ensures TransformPoint(AffineTransformation(1.0, 0.0, 0.0, s, 1.0, 0.0), p) == Point(p.x, s * p.x + p.y)
  {
  }

  /** composeWith: the map that applies that first and t second. */
  function ComposeWith(t: AffineTransformation, that: AffineTransformation): (r: AffineTransformation)
    ensures forall p {:trigger TransformPoint(r, p)} :: TransformPoint(r, p) == TransformPoint(t, TransformPoint(that, p))
  {
    AffineTransformation(
      t.a * that.a + t.b * that.d, t.a * that.b + t.b * that.e, t.a * that.c + t.b * that.f + t.c,
      t.d * that.a + t.e * that.d, t.d * that.b + t.e * that.e, t.d * that.c + t.e * that.f + t.f)
  }

  /** IDENTITY fixes every point. */
  lemma IdentityFixesPoints(p: Point)
    ensures TransformPoint(IDENTITY, p) == p
  {
  }

  /** IDENTITY is a unit of composeWith on both sides. */
  lemma IdentityIsUnit(t: AffineTransformation)
    ensures ComposeWith(IDENTITY, t) == t
    ensures ComposeWith(t, IDENTITY) == t
  {
  }

  /** An affine map is determined by the images of the origin and of the two unit points. */
  lemma Extensionality(t: AffineTransformation, u: AffineTransformation)
    requires TransformPoint(t, ORIGIN) == TransformPoint(u, ORIGIN)
    requires TransformPoint(t, Point(1.0, 0.0)) == TransformPoint(u, Point(1.0, 0.0))
    requires TransformPoint(t, Point(0.0, 1.0)) == TransformPoint(u, Point(0.0, 1.0))
    ensures t == u
  {
    assert t.c == u.c && t.f == u.f;
    assert t.a + t.c == u.a + u.c && t.d + t.f == u.d + u.f;
    assert t.b + t.c == u.b + u.c && t.e + t.f == u.e + u.f;
  }

  /** composeWith is associative. */
  lemma {:induction false} ComposeAssociative(s: AffineTransformation, t: AffineTransformation, u: AffineTransformation)
    ensures ComposeWith(ComposeWith(s, t), u) == ComposeWith(s, ComposeWith(t, u))
  {
    forall p | p in {ORIGIN, Point(1.0, 0.0), Point(0.0, 1.0)}
      ensures TransformPoint(ComposeWith(ComposeWith(s, t), u), p) == TransformPoint(ComposeWith(s, ComposeWith(t, u)), p)
    {
      assert TransformPoint(ComposeWith(ComposeWith(s, t), u), p) == TransformPoint(s, TransformPoint(t, TransformPoint(u, p)));
    }
    Extensionality(ComposeWith(ComposeWith(s, t), u), ComposeWith(s, ComposeWith(t, u)));
  }

  /** Under sin^2 + cos^2 = 1 a rotation keeps every point's distance to the origin. */
  lemma RotationPreservesNorm(m: Transcendental, theta: real, p: Point)
    requires TrigLaw(m.sin, m.cos)
    ensures SquaredNorm(TransformPoint(NewRotation(m, theta), p)) == SquaredNorm(p)
  {
    assert Sq(m.sin(theta)) + Sq(m.cos(theta)) == 1.0;
    RotatedNorm(p, m.cos(theta), m.sin(theta));
  }

  /** The rotation matrix [c -s; s c] with c^2 + s^2 = 1 is an isometry. */
  lemma RotatedNorm(p: Point, c: real, s: real)
    requires Sq(c) + Sq(s) == 1.0
    ensures SquaredNorm(TransformPoint(AffineTransformation(c, -s, 0.0, s, c, 0.0), p)) == SquaredNorm(p)
  {
    assert TransformPoint(AffineTransformation(c, -s, 0.0, s, c, 0.0), p) == Point(c * p.x - s * p.y, s * p.x + c * p.y);
    RotatedSquares(p.x, p.y, c, s);
    assert Times(Sq(p.x) + Sq(p.y), Sq(c) + Sq(s)) == Times(Sq(p.x) + Sq(p.y), 1.0);
  }

  /** Lagrange's identity for a rotation matrix. */
  lemma RotatedSquares(x: real, y: real, c: real, s: real)
    ensures Sq(c * x - s * y) + Sq(s * x + c * y) == Times(Sq(x) + Sq(y), Sq(c) + Sq(s))
  {
    assert (c * x - s * y) * (c * x - s * y) + (s * x + c * y) * (s * x + c * y)
      == (x * x + y * y) * (c * c + s * s);
  }
}
