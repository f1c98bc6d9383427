/**
 * The catalogue of variations (flame/Variation.java): six fixed non-linear maps
 * of the plane, each known by its position in ALL_VARIATIONS and by a name.
 * A division by zero makes the source's double arithmetic produce a value that
 * is not a finite number; the model returns None there.
 */
module Variations {
  import opened Wrappers
  import opened RealMath
  import opened Points

  datatype Variation = Linear | Sinusoidal | Spherical | Swirl | Horseshoe | Bubble

  /** ALL_VARIATIONS, in index order. */
  const ALL_VARIATIONS: seq<Variation> := [Linear, Sinusoidal, Spherical, Swirl, Horseshoe, Bubble]

  /** The number of variations, ALL_VARIATIONS.size(). */
  const VARIATION_COUNT: nat := 6

  /** getIndex(): the variation's position in ALL_VARIATIONS. */
  function Index(v: Variation): (i: nat)
    ensures i < |ALL_VARIATIONS| && ALL_VARIATIONS[i] == v
  {
    match v
    case Linear => 0
    case Sinusoidal => 1
    case Spherical => 2
    case Swirl => 3
    case Horseshoe => 4
    case Bubble => 5
  }

  /** getName(). */
  function Name(v: Variation): string {
    match v
    case Linear => "Linear"
    case Sinusoidal => "Sinusoidal"
    case Spherical => "Spherical"
    case Swirl => "Swirl"
    case Horseshoe => "Horseshoe"
    case Bubble => "Bubble"
  }

  /** The squared radius Math.pow(p.r(), 2). */
  function RadiusSquared(m: Transcendental, p: Point): (r2: real)
    ensures 0.0 <= r2
    ensures SqrtLaw(m.sqrt) ==> r2 == SquaredNorm(p)
  {
    SqSign(R(m, p));
    Sq(R(m, p))
  }

  /** transformPoint: the image of p, or None where the source divides by zero. */
  function TransformPoint(m: Transcendental, v: Variation, p: Point): (r: Option<Point>)
    ensures v != Spherical && v != Horseshoe ==> r.Some?
  {
    match v
    case Linear => Some(Point(p.x, p.y))
    case Sinusoidal => Some(Point(m.sin(p.x), m.sin(p.y)))
    case Spherical =>
      var r2 := RadiusSquared(m, p);
      if r2 == 0.0 then None else Some(Point(p.x / r2, p.y / r2))
    case Swirl =>
      var r2 := RadiusSquared(m, p);
      Some(Point(p.x * m.sin(r2) - p.y * m.cos(r2), p.x * m.cos(r2) + p.y * m.sin(r2)))
    case Horseshoe =>
      var r := R(m, p);
      if r == 0.0 then None else Some(Point((p.x - p.y) * (p.x + p.y) / r, 2.0 * p.x * p.y / r))
    case Bubble =>
      var r2p4 := RadiusSquared(m, p) + 4.0;
      Some(Point(4.0 * p.x / r2p4, 4.0 * p.y / r2p4))
  }

  /** The catalogue has six entries, and the entry at position i has index i. */
  lemma CatalogIsIndexed()
    ensures |ALL_VARIATIONS| == VARIATION_COUNT
    ensures forall i :: 0 <= i < |ALL_VARIATIONS| ==> Index(ALL_VARIATIONS[i]) == i
  {
  }

  /** The names, in catalogue order. */
  lemma NamesInOrder()
    ensures seq(|ALL_VARIATIONS|, i requires 0 <= i < |ALL_VARIATIONS| => Name(ALL_VARIATIONS[i]))
         == ["Linear", "Sinusoidal", "Spherical", "Swirl", "Horseshoe", "Bubble"]
  {
  }

  /** Linear is the identity. */
  lemma LinearIsIdentity(m: Transcendental, p: Point)
    ensures TransformPoint(m, Linear, p) == Some(p)
  {
  }

  /** Bubble scales p by 4/(r^2 + 4), whose denominator is at least 4: it is defined everywhere. */
  lemma BubbleIsTotal(m: Transcendental, p: Point)
    requires SqrtLaw(m.sqrt)
    ensures SquaredNorm(p) + 4.0 >= 4.0
    ensures TransformPoint(m, Bubble, p)
         == Some(Point(4.0 * p.x / (SquaredNorm(p) + 4.0), 4.0 * p.y / (SquaredNorm(p) + 4.0)))
  {
    assert RadiusSquared(m, p) == SquaredNorm(p);
  }

  /** Spherical scales p by 1/r^2; it divides by zero at the origin and only there. */
  lemma SphericalAwayFromOrigin(m: Transcendental, p: Point)
    requires SqrtLaw(m.sqrt)
    ensures TransformPoint(m, Spherical, p).None? <==> p == ORIGIN
    ensures p != ORIGIN ==>
              TransformPoint(m, Spherical, p) == Some(Point(p.x / SquaredNorm(p), p.y / SquaredNorm(p)))
  {
    assert RadiusSquared(m, p) == SquaredNorm(p);
  }

  /** Horseshoe divides by r; it is undefined at the origin and only there. */
  lemma HorseshoeAwayFromOrigin(m: Transcendental, p: Point)
    requires SqrtLaw(m.sqrt)
    ensures TransformPoint(m, Horseshoe, p).None? <==> p == ORIGIN
  {
    RadiusZeroIffOrigin(m, p);
  }

  /** The only undefined images are those of the origin under Spherical and Horseshoe. */
  lemma DefinedUnlessDividingByZero(m: Transcendental, v: Variation, p: Point)
    requires SqrtLaw(m.sqrt)
    ensures TransformPoint(m, v, p).None? <==> (v == Spherical || v == Horseshoe) && p == ORIGIN
  {
    if v == Spherical {
      SphericalAwayFromOrigin(m, p);
    } else if v == Horseshoe {
      HorseshoeAwayFromOrigin(m, p);
    } else {
      assert TransformPoint(m, v, p).Some?;
    }
  }
}
