/** Axis-parallel rectangles used as viewports (geometry2d/Rectangle.java). */
module Rectangles {
  import opened Wrappers
  import opened Points
  import opened RealMath

  datatype Rectangle = Rectangle(center: Point, width: real, height: real)

  /** What the constructor guarantees of every rectangle. */
  predicate Valid(r: Rectangle) {
    r.width > 0.0 && r.height > 0.0
  }

  /** The constructor: it throws unless both sides are positive. */
  function NewRectangle(center: Point, width: real, height: real): (res: Result<Rectangle>)
    ensures res.Err? <==> width <= 0.0 || height <= 0.0
    ensures res.Err? ==> res.error == IllegalArgument
    ensures res.Ok? ==>
      && Valid(res.value)
      && res.value.center == center && res.value.width == width && res.value.height == height
  {
    if width <= 0.0 then Err(IllegalArgument)
    else if height <= 0.0 then Err(IllegalArgument)
    else Ok(Rectangle(center, width, height))
  }

  function Left(r: Rectangle): real { r.center.x - r.width / 2.0 }
  function Right(r: Rectangle): real { r.center.x + r.width / 2.0 }
  function Bottom(r: Rectangle): real { r.center.y - r.height / 2.0 }
  function Top(r: Rectangle): real { r.center.y + r.height / 2.0 }

  /** The edges lie half a side from the centre, so they are strictly ordered. */
  lemma EdgesOrdered(r: Rectangle)
    requires Valid(r)
    ensures Left(r) < r.center.x < Right(r) && Right(r) - Left(r) == r.width
    ensures Bottom(r) < r.center.y < Top(r) && Top(r) - Bottom(r) == r.height
  {
  }

  /** contains(p): the half-open box [left, right) x [bottom, top). */
  predicate Contains(r: Rectangle, p: Point) {
    p.x >= Left(r) && p.x < Right(r) && p.y >= Bottom(r) && p.y < Top(r)
  }

  /** The lower-left corner and the centre are inside; nothing on the right or top edge is. */
  lemma ContainsIsHalfOpen(r: Rectangle, p: Point)
    requires Valid(r)
    ensures Contains(r, Point(Left(r), Bottom(r))) && Contains(r, r.center)
    ensures p.x == Right(r) || p.y == Top(r) ==> !Contains(r, p)
  {
  }

  function AspectRatio(r: Rectangle): (q: real)
    requires Valid(r)
    ensures q > 0.0 && q * r.height == r.width
  {
    r.width / r.height
  }

  /**
   * expandToAspectRatio(q): the smallest rectangle with the same centre and the
   * aspect ratio q that contains the receiver; the receiver itself when q is
   * already its ratio.
   */
  function ExpandToAspectRatio(r: Rectangle, q: real): (res: Result<Rectangle>)
    requires Valid(r)
    ensures res.Err? <==> q <= 0.0
    ensures res.Err? ==> res.error == IllegalArgument
    ensures res.Ok? ==> var e := res.value;
      && Valid(e) && e.center == r.center && AspectRatio(e) == q
      && e.width >= r.width && e.height >= r.height
      && (e.width == r.width || e.height == r.height)
    ensures q == AspectRatio(r) ==> res == Ok(r)
  {
    if q <= 0.0 then Err(IllegalArgument)
    else if q > AspectRatio(r) then
      assert q * r.height > r.width by { AboveRatio(r, q); }
      NewRectangle(r.center, q * r.height, r.height)
    else if q < AspectRatio(r) then
      assert r.width / q > r.height by { BelowRatio(r, q); }
      NewRectangle(r.center, r.width, r.width / q)
    else Ok(r)
  }

  lemma AboveRatio(r: Rectangle, q: real)
    requires Valid(r) && q > AspectRatio(r)
    ensures q * r.height > r.width
  {
    assert q * r.height > AspectRatio(r) * r.height;
  }

  lemma BelowRatio(r: Rectangle, q: real)
    requires Valid(r) && 0.0 < q < AspectRatio(r)
    ensures r.width / q > r.height
  {
    assert q * r.height < r.width;
    assert (r.width / q) * q == r.width;
  }

  /** Every point of the receiver lies in its expansion. */
  lemma {:induction false} ExpandKeepsPoints(r: Rectangle, q: real, p: Point)
    requires Valid(r) && q > 0.0 && Contains(r, p)
    ensures ExpandToAspectRatio(r, q).Ok? && Contains(ExpandToAspectRatio(r, q).value, p)
  {
    var e := ExpandToAspectRatio(r, q).value;
    assert Left(e) <= Left(r) && Right(r) <= Right(e);
    assert Bottom(e) <= Bottom(r) && Top(r) <= Top(e);
  }

  /** No rectangle with the same centre and ratio q that covers the receiver is smaller. */
  lemma {:induction false} ExpandIsSmallest(r: Rectangle, q: real, s: Rectangle)
    requires Valid(r) && Valid(s) && q > 0.0
    requires s.center == r.center && AspectRatio(s) == q
    requires s.width >= r.width && s.height >= r.height
    ensures ExpandToAspectRatio(r, q).Ok?
    ensures s.width >= ExpandToAspectRatio(r, q).value.width
    ensures s.height >= ExpandToAspectRatio(r, q).value.height
  {
    var e := ExpandToAspectRatio(r, q).value;
    assert s.width == Times(q, s.height);
    if q > AspectRatio(r) {
      assert e.width == Times(q, r.height);
      TimesNonNegative(q, s.height - r.height);
      assert Times(q, s.height - r.height) == Times(q, s.height) - Times(q, r.height);
    } else if q < AspectRatio(r) {
      assert e.height == r.width / q;
      assert s.height - e.height == (Times(q, s.height) - r.width) / q;
    }
  }
}
