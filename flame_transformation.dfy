/**
 * Flame transformations (flame/FlameTransformation.java): an affine map
 * followed by a weighted sum of the six variations, all applied to the same
 * affine image. A non-number produced by one variation spoils the whole sum
 * (in the source's doubles 0 times NaN is NaN), so the sum is None as soon
 * as any variation is undefined, whatever the weights.
 */
module FlameTransformations {
  import opened Wrappers
  import opened RealMath
  import opened Points
  import A = AffineTransformations
  import V = Variations

  datatype FlameTransformation = FlameTransformation(affine: A.AffineTransformation, weights: seq<real>)

  /** What the constructor guarantees: one weight per variation. */
  predicate WellFormed(ft: FlameTransformation) {
    |ft.weights| == V.VARIATION_COUNT
  }

  /** The constructor: rejects a weight array whose length is not the number of variations. */
  function NewFlameTransformation(affine: A.AffineTransformation, weights: seq<real>): (r: Result<FlameTransformation>)
    ensures r.Err? <==> |weights| != V.VARIATION_COUNT
    ensures r.Err? ==> r.error == IllegalArgument
    ensures r.Ok? ==> WellFormed(r.value) && r.value.affine == affine && r.value.weights == weights
  {
    if |weights| != V.VARIATION_COUNT then Err(IllegalArgument) else Ok(FlameTransformation(affine, weights))
  }

  /**
   * The sum of weights[j] * V_j(g) over the first n variations, starting from
   * (0, 0) and adding in catalogue order; None once a term is undefined.
   */
  function WeightedSum(m: Transcendental, weights: seq<real>, g: Point, n: nat): Option<Point>
    requires n <= |weights| && n <= |V.ALL_VARIATIONS|
  {
    if n == 0 then Some(ORIGIN)
    else
      var prior := WeightedSum(m, weights, g, n - 1);
      var term := V.TransformPoint(m, V.ALL_VARIATIONS[n - 1], g);
      if prior.None? || term.None? then None
      else Some(Point(prior.value.x + Times(weights[n - 1], term.value.x), prior.value.y + Times(weights[n - 1], term.value.y)))
  }

  /** The image of p: all six weighted variations of its affine image. */
  function Apply(m: Transcendental, ft: FlameTransformation, p: Point): Option<Point>
    requires WellFormed(ft)
  {
    WeightedSum(m, ft.weights, A.TransformPoint(ft.affine, p), V.VARIATION_COUNT)
  }

  /** transformPoint: accumulates wx and wy over the catalogue. */
  method TransformPoint(m: Transcendental, ft: FlameTransformation, p: Point) returns (r: Option<Point>)
    requires WellFormed(ft)
    ensures r == Apply(m, ft, p)
  {
    var wx, wy := 0.0, 0.0;
    var defined := true;
    for j := 0 to |V.ALL_VARIATIONS|
      invariant defined ==> WeightedSum(m, ft.weights, A.TransformPoint(ft.affine, p), j) == Some(Point(wx, wy))
      invariant !defined ==> WeightedSum(m, ft.weights, A.TransformPoint(ft.affine, p), j) == None
    {
      var p2 := V.TransformPoint(m, V.ALL_VARIATIONS[j], A.TransformPoint(ft.affine, p));
      if p2.None? {
        defined := false;
      } else {
        wx := wx + Times(ft.weights[j], p2.value.x);
        wy := wy + Times(ft.weights[j], p2.value.y);
      }
    }
    if defined {
      r := Some(Point(wx, wy));
    } else {
      r := None;
    }
  }

  /**
   * The partial sum is undefined exactly when it has reached Spherical (index 2)
   * and the affine image is the origin.
   */
  lemma {:induction false} WeightedSumUndefined(m: Transcendental, weights: seq<real>, g: Point, n: nat)
    requires SqrtLaw(m.sqrt)
    requires n <= |weights| && n <= |V.ALL_VARIATIONS|
    ensures WeightedSum(m, weights, g, n).None? <==> 3 <= n && g == ORIGIN
  {
    if n > 0 {
      WeightedSumUndefined(m, weights, g, n - 1);
      WeightedSumStep(m, weights, g, n);
      var v := V.ALL_VARIATIONS[n - 1];
      V.DefinedUnlessDividingByZero(m, v, g);
      assert v == V.Spherical <==> n == 3;
      assert v == V.Horseshoe <==> n == 5;
    }
  }

  /** The partial sum over n variations is undefined iff the one over n - 1 is or the n-th term is. */
  lemma WeightedSumStep(m: Transcendental, weights: seq<real>, g: Point, n: nat)
    requires 0 < n <= |weights| && n <= |V.ALL_VARIATIONS|
    ensures WeightedSum(m, weights, g, n).None?
        <==> WeightedSum(m, weights, g, n - 1).None? || V.TransformPoint(m, V.ALL_VARIATIONS[n - 1], g).None?
  {
  }

  /** A flame transformation is undefined exactly on the points its affine part sends to the origin. */
  lemma UndefinedIffAffineImageIsOrigin(m: Transcendental, ft: FlameTransformation, p: Point)
    requires SqrtLaw(m.sqrt) && WellFormed(ft)
    ensures Apply(m, ft, p).None? <==> A.TransformPoint(ft.affine, p) == ORIGIN
  {
    WeightedSumUndefined(m, ft.weights, A.TransformPoint(ft.affine, p), V.VARIATION_COUNT);
  }

  /** The weights [1, 0, 0, 0, 0, 0]. */
  const LINEAR_ONLY: seq<real> := [1.0, 0.0, 0.0, 0.0, 0.0, 0.0]

  /** With weight 1 on Linear and 0 elsewhere every defined partial sum is the affine image itself. */
  lemma {:induction false} LinearOnlySum(m: Transcendental, g: Point, n: nat)
    requires 1 <= n <= V.VARIATION_COUNT
    requires WeightedSum(m, LINEAR_ONLY, g, n).Some?
    ensures WeightedSum(m, LINEAR_ONLY, g, n) == Some(g)
  {
    if n > 1 {
      LinearOnlySum(m, g, n - 1);
    }
  }

  /** The weights [1, 0, 0, 0, 0, 0] make a flame transformation its affine part, away from the origin. */
  lemma LinearOnlyIsAffine(m: Transcendental, affine: A.AffineTransformation, p: Point)
    requires SqrtLaw(m.sqrt)
    requires A.TransformPoint(affine, p) != ORIGIN
    ensures Apply(m, FlameTransformation(affine, LINEAR_ONLY), p) == Some(A.TransformPoint(affine, p))
  {
    UndefinedIffAffineImageIsOrigin(m, FlameTransformation(affine, LINEAR_ONLY), p);
    LinearOnlySum(m, A.TransformPoint(affine, p), V.VARIATION_COUNT);
  }

  /**
   * FlameTransformation.Builder: an affine component and a weight array that
   * the setters change in place.
   */
  class Builder {
    var affine: A.AffineTransformation
    const weights: array<real>

    ghost predicate Valid()
      reads this
    {
      weights.Length == V.VARIATION_COUNT
    }

    /** The transformation build() would return now. */
    function Current(): FlameTransformation
      reads this, weights
    {
      FlameTransformation(affine, weights[..])
    }

    /** Builder(f): starts from f's affine part and a copy of its weights. */
    constructor (f: FlameTransformation)
      requires WellFormed(f)
      ensures Valid() && fresh(weights)
      ensures Current() == f
    {
      affine := f.affine;
      weights := new real[V.VARIATION_COUNT](i requires 0 <= i < V.VARIATION_COUNT reads {} => f.weights[i]);
    }

    /** build(): a transformation with the current affine part and weights. */
    method Build() returns (f: FlameTransformation)
      requires Valid()
      ensures WellFormed(f) && f == Current()
    {
      f := FlameTransformation(affine, weights[..]);
    }

    /** getAffineTransformation(). */
    function GetAffineTransformation(): (t: A.AffineTransformation)
      reads this
      ensures t == Current().affine
    {
      affine
    }

    /** setAffineTransformation: replaces the affine component only. */
    method SetAffineTransformation(t: A.AffineTransformation)
      requires Valid()
      modifies this
      ensures Valid() && Current() == old(Current()).(affine := t)
    {
      affine := t;
    }

    /** getVariationWeight: an index outside the array fails. */
    function GetVariationWeight(index: int): (r: Result<real>)
      reads this, weights
      ensures r.Ok? <==> 0 <= index < |Current().weights|
      ensures r.Ok? ==> r.value == Current().weights[index]
      ensures r.Err? ==> r.error == IndexOutOfBounds
    {
      if 0 <= index < weights.Length then Ok(weights[index]) else Err(IndexOutOfBounds)
    }

    /** setNewWeight: overwrites one weight in place; an index outside the array fails and changes nothing. */
    method SetNewWeight(index: int, newWeight: real) returns (o: Outcome)
      requires Valid()
      modifies weights
      ensures Valid()
      ensures o.Pass? <==> 0 <= index < V.VARIATION_COUNT
      ensures o.Pass? ==> Current() == old(Current()).(weights := old(Current()).weights[index := newWeight])
      ensures o.Fail? ==> o.error == IndexOutOfBounds && Current() == old(Current())
    {
      if 0 <= index < weights.Length {
        weights[index] := newWeight;
        o := Pass;
      } else {
        o := Fail(IndexOutOfBounds);
      }
    }
  }

  /** Builder(f).build() gives f back, and building never touches f. */
  method Rebuild(f: FlameTransformation) returns (g: FlameTransformation)
    requires WellFormed(f)
    ensures g == f
  {
    var b := new Builder(f);
    g := b.Build();
  }

  /** A weight set through a builder reads back, and the other weights and the affine part are kept. */
  method SetThenGet(f: FlameTransformation, index: int, w: real) returns (g: FlameTransformation, r: Result<real>)
    requires WellFormed(f)
    ensures 0 <= index < V.VARIATION_COUNT ==> r == Ok(w) && g == f.(weights := f.weights[index := w])
    ensures !(0 <= index < V.VARIATION_COUNT) ==> r == Err(IndexOutOfBounds) && g == f
  {
    var b := new Builder(f);
    var o := b.SetNewWeight(index, w);
    r := b.GetVariationWeight(index);
    g := b.Build();
  }
}
