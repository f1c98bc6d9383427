/**
 * The histogram of a flame (flame/FlameAccumulator.java): a height x width
 * grid of hit counts and a grid of colour-index sums, filled in place by a
 * builder and frozen into a value by build(). Row 0 is the top of the image.
 */
module FlameAccumulators {
  import opened Wrappers
  import opened RealMath
  import opened Points
  import opened Rectangles
  import A = AffineTransformations
  import opened Colors
  import P = Palettes

  /** A grid of h rows of w cells each. */
  predicate IsGrid<T>(g: seq<seq<T>>, w: int, h: int) {
    |g| == h && forall i :: 0 <= i < h ==> |g[i]| == w
  }

  /** The grid of h rows of w copies of v. */
  function Constant<T>(w: nat, h: nat, v: T): (g: seq<seq<T>>)
    ensures IsGrid(g, w, h)
    ensures forall i, j :: 0 <= i < h && 0 <= j < w ==> g[i][j] == v
  {
    seq(h, i => seq(w, j => v))
  }

  // ---- The pixel a point falls in ----

  /**
   * The map from the frame to pixel space set up by the builder's constructor:
   * translate the frame's lower-left corner to the origin, then scale the
   * frame's sides to width and height.
   */
  function PixelTransform(frame: Rectangle, width: int, height: int): A.AffineTransformation
    requires Valid(frame)
  {
    A.ComposeWith(
      A.NewScaling(width as real / frame.width, height as real / frame.height),
      A.NewTranslation(-Left(frame), -Bottom(frame)))
  }

  /** Pixel space coordinates: the offsets from the frame's lower-left corner, scaled to the grid. */
  function PixelPosition(frame: Rectangle, width: int, height: int, p: Point): Point
    requires Valid(frame)
  {
    A.TransformPoint(A.NewScaling(width as real / frame.width, height as real / frame.height),
                     A.TransformPoint(A.NewTranslation(-Left(frame), -Bottom(frame)), p))
  }

  /** The builder's transformation sends every point to its pixel space position. */
  lemma PixelTransformIsPixelPosition(frame: Rectangle, width: int, height: int)
    requires Valid(frame)
    ensures forall p :: A.TransformPoint(PixelTransform(frame, width, height), p) == PixelPosition(frame, width, height, p)
  {
  }

  /** The pixel space position as offsets times scale factors. */
  lemma PixelCoordinates(frame: Rectangle, width: int, height: int, p: Point)
    requires Valid(frame)
    ensures PixelPosition(frame, width, height, p)
         == Point(Times(width as real / frame.width, p.x - Left(frame)),
                  Times(height as real / frame.height, p.y - Bottom(frame)))
  {
    ScaleAfterTranslation(width as real / frame.width, height as real / frame.height, -Left(frame), -Bottom(frame), p);
  }

  /** Scaling after a translation by (dx, dy) sends p to (sx (x + dx), sy (y + dy)). */
  lemma ScaleAfterTranslation(sx: real, sy: real, dx: real, dy: real, p: Point)
    ensures A.TransformPoint(A.NewScaling(sx, sy), A.TransformPoint(A.NewTranslation(dx, dy), p))
         == Point(Times(sx, p.x + dx), Times(sy, p.y + dy))
  {
    assert A.TransformPoint(A.NewTranslation(dx, dy), p) == Point(p.x + dx, p.y + dy);
  }

  /** An offset in [0, side) scaled by n / side lies in [0, n). */
  lemma ScaleIntoPixels(u: real, side: real, n: real)
    requires 0.0 <= u < side && 0.0 < n
    ensures 0.0 <= Times(n / side, u) < n
  {
    TimesNonNegative(n / side, u);
    TimesPositive(n / side, side - u);
    assert Times(n / side, side - u) == Times(n / side, side) - Times(n / side, u);
    assert Times(n / side, side) == n;
  }

  /** A point of the frame lands in [0, width) x [0, height) of pixel space. */
  lemma InsidePixelSpace(frame: Rectangle, width: int, height: int, p: Point)
    requires Valid(frame) && 0 < width && 0 < height && Contains(frame, p)
    ensures 0.0 <= PixelPosition(frame, width, height, p).x < width as real
    ensures 0.0 <= PixelPosition(frame, width, height, p).y < height as real
  {
    PixelCoordinates(frame, width, height, p);
    EdgesOrdered(frame);
    ScaleIntoPixels(p.x - Left(frame), frame.width, width as real);
    ScaleIntoPixels(p.y - Bottom(frame), frame.height, height as real);
  }

  /** The column of a pixel space position, (int) x. */
  function Column(q: Point): (c: int)
    ensures 0.0 <= q.x ==> c as real <= q.x < c as real + 1.0
  {
    Trunc(q.x)
  }

  /** The row as the source computes it, (int) (height - y). */
  function RowAsWritten(height: int, q: Point): (r: int)
    ensures 0.0 <= q.y < height as real ==> 0 <= r <= height
    ensures 0.0 < q.y <= height as real ==> r < height
    ensures q.y == 0.0 ==> r == height
  {
    Trunc(height as real - q.y)
  }

  /**
   * The row of a pixel space position counted from the top: the source's
   * (int) (height - y), kept at the last row height - 1 where the bottom
   * edge y = 0 would give height.
   */
  function Row(height: int, q: Point): (r: int)
    ensures 0.0 <= q.y < height as real ==> 0 <= r < height
    ensures r == RowAsWritten(height, q) || r == height - 1
  {
    if RowAsWritten(height, q) < height then RowAsWritten(height, q) else height - 1
  }

  /** The cell (row, column) a hit at p lands in, or None when the frame does not contain p. */
  function Cell(frame: Rectangle, width: int, height: int, p: Option<Point>): (cell: Option<(int, int)>)
    requires Valid(frame) && 0 < width && 0 < height
    ensures cell.Some? <==> p.Some? && Contains(frame, p.value)
    ensures cell.Some? ==> 0 <= cell.value.0 < height && 0 <= cell.value.1 < width
  {
    if p.Some? && Contains(frame, p.value) then
      InsidePixelSpace(frame, width, height, p.value);
      Some((Row(height, PixelPosition(frame, width, height, p.value)), Column(PixelPosition(frame, width, height, p.value))))
    else None
  }

  /**
   * A point on the bottom edge of the frame gets the row height, one past the
   * last row; the corrected row is the last one.
   */
  lemma BottomEdgeRowAsWritten(frame: Rectangle, width: int, height: int, p: Point)
    requires Valid(frame) && 0 < width && 0 < height && Contains(frame, p)
    requires p.y == Bottom(frame)
    ensures RowAsWritten(height, PixelPosition(frame, width, height, p)) == height
    ensures Row(height, PixelPosition(frame, width, height, p)) == height - 1
  {
    PixelCoordinates(frame, width, height, p);
    assert Times(height as real / frame.height, p.y - Bottom(frame)) == 0.0;
  }

  /**
   * Above the bottom edge the corrected row is the source's row, and it lies
   * in the grid; in pixel space this is every ordinate other than 0.
   */
  lemma RowsAgreeAboveBottomEdge(height: int, q: Point)
    requires 0.0 <= q.y < height as real
    ensures RowAsWritten(height, q) == Row(height, q) <==> q.y != 0.0
    ensures 0 <= Row(height, q) < height
  {
  }

  /**
   * The grid is filled from the bottom of the plane: a higher ordinate in
   * pixel space never gets a lower row.
   */
  lemma RowOrientation(height: int, q1: Point, q2: Point)
    requires 0 < height && 0.0 <= q1.y <= q2.y < height as real
    ensures Row(height, q2) <= Row(height, q1)
  {
  }

  /** A scaling by a non-negative factor keeps the order of two reals. */
  lemma TimesMonotone(k: real, u1: real, u2: real)
    requires 0.0 <= k && u1 <= u2
    ensures Times(k, u1) <= Times(k, u2)
  {
    TimesNonNegative(k, u2 - u1);
    assert Times(k, u2 - u1) == Times(k, u2) - Times(k, u1);
  }

  /**
   * Of two points of the frame, the higher one is in the same row or one
   * nearer the top (row 0), and the one further right is in the same column
   * or one further right.
   */
  lemma CellOrientation(frame: Rectangle, width: int, height: int, p1: Point, p2: Point)
    requires Valid(frame) && 0 < width && 0 < height && Contains(frame, p1) && Contains(frame, p2)
    ensures p1.y <= p2.y ==> Cell(frame, width, height, Some(p2)).value.0 <= Cell(frame, width, height, Some(p1)).value.0
    ensures p1.x <= p2.x ==> Cell(frame, width, height, Some(p1)).value.1 <= Cell(frame, width, height, Some(p2)).value.1
  {
    PixelCoordinates(frame, width, height, p1);
    PixelCoordinates(frame, width, height, p2);
    InsidePixelSpace(frame, width, height, p1);
    InsidePixelSpace(frame, width, height, p2);
    var q1 := PixelPosition(frame, width, height, p1);
    var q2 := PixelPosition(frame, width, height, p2);
    if p1.y <= p2.y {
      TimesMonotone(height as real / frame.height, p1.y - Bottom(frame), p2.y - Bottom(frame));
      RowOrientation(height, q1, q2);
    }
    if p1.x <= p2.x {
      TimesMonotone(width as real / frame.width, p1.x - Left(frame), p2.x - Left(frame));
      assert Column(q1) <= Column(q2);
    }
  }

  // ---- Hits on grids ----

  /** Two grids of the same shape with the same cells are equal. */
  lemma GridsEqual<T>(g: seq<seq<T>>, h: seq<seq<T>>, width: int, height: int)
    requires IsGrid(g, width, height) && IsGrid(h, width, height)
    requires forall i, j :: 0 <= i < height && 0 <= j < width ==> g[i][j] == h[i][j]
    ensures g == h
  {
    forall i | 0 <= i < height
      ensures g[i] == h[i]
    {
      assert forall j :: 0 <= j < width ==> g[i][j] == h[i][j];
    }
  }

  /** The counts after a hit in cell. */
  function AddHit(counts: seq<seq<int>>, cell: Option<(int, int)>): (g: seq<seq<int>>)
    requires cell.Some? ==> 0 <= cell.value.0 < |counts| && 0 <= cell.value.1 < |counts[cell.value.0]|
    ensures |g| == |counts|
    ensures forall i :: 0 <= i < |g| ==> |g[i]| == |counts[i]|
    ensures forall i, j :: 0 <= i < |g| && 0 <= j < |g[i]| ==>
              g[i][j] == counts[i][j] + (if cell == Some((i, j)) then 1 else 0)
  {
    match cell
    case None => counts
    case Some((y, x)) => counts[y := counts[y][x := counts[y][x] + 1]]
  }

  /** The colour-index sums after a hit with index c in cell. */
  function AddColor(sums: seq<seq<real>>, cell: Option<(int, int)>, c: real): (g: seq<seq<real>>)
    requires cell.Some? ==> 0 <= cell.value.0 < |sums| && 0 <= cell.value.1 < |sums[cell.value.0]|
    ensures |g| == |sums|
    ensures forall i :: 0 <= i < |g| ==> |g[i]| == |sums[i]|
    ensures forall i, j :: 0 <= i < |g| && 0 <= j < |g[i]| ==>
              g[i][j] == sums[i][j] + (if cell == Some((i, j)) then c else 0.0)
  {
    match cell
    case None => sums
    case Some((y, x)) => sums[y := sums[y][x := sums[y][x] + c]]
  }

  /** The sum of a row. */
  function RowTotal(row: seq<int>): int {
    if |row| == 0 then 0 else RowTotal(row[..|row| - 1]) + row[|row| - 1]
  }

  /** The sum of all the cells of a grid. */
  function Total(g: seq<seq<int>>): int {
    if |g| == 0 then 0 else Total(g[..|g| - 1]) + RowTotal(g[|g| - 1])
  }

  lemma {:induction false} RowTotalIncrement(row: seq<int>, x: int)
    requires 0 <= x < |row|
    ensures RowTotal(row[x := row[x] + 1]) == RowTotal(row) + 1
  {
    var r := row[x := row[x] + 1];
    if x < |row| - 1 {
      assert r[..|r| - 1] == row[..|row| - 1][x := row[x] + 1];
      RowTotalIncrement(row[..|row| - 1], x);
    } else {
      assert r[..|r| - 1] == row[..|row| - 1];
    }
  }

  lemma {:induction false} TotalIncrement(g: seq<seq<int>>, y: int, x: int)
    requires 0 <= y < |g| && 0 <= x < |g[y]|
    ensures Total(g[y := g[y][x := g[y][x] + 1]]) == Total(g) + 1
  {
    var h := g[y := g[y][x := g[y][x] + 1]];
    if y < |g| - 1 {
      assert h[..|h| - 1] == g[..|g| - 1][y := g[y][x := g[y][x] + 1]];
      TotalIncrement(g[..|g| - 1], y, x);
    } else {
      assert h[..|h| - 1] == g[..|g| - 1];
      RowTotalIncrement(g[y], x);
    }
  }

  /** A hit adds one to the total count if the frame contains it and nothing otherwise. */
  lemma HitCountsOnce(frame: Rectangle, width: int, height: int, counts: seq<seq<int>>, p: Option<Point>)
    requires Valid(frame) && 0 < width && 0 < height && IsGrid(counts, width, height)
    ensures Total(AddHit(counts, Cell(frame, width, height, p)))
         == Total(counts) + (if p.Some? && Contains(frame, p.value) then 1 else 0)
  {
    var cell := Cell(frame, width, height, p);
    if cell.Some? {
      TotalIncrement(counts, cell.value.0, cell.value.1);
    }
  }

  // ---- The largest count ----

  /** Java's maxPoints < h ? h : maxPoints. */
  function Larger(m: int, h: int): int {
    if m < h then h else m
  }

  /** The running maximum after the first j cells of a row, starting from m. */
  function MaxInRow(row: seq<int>, j: nat, m: int): int
    requires j <= |row|
  {
    if j == 0 then m else Larger(MaxInRow(row, j - 1, m), row[j - 1])
  }

  /** The running maximum after the first i rows, starting from 0. */
  function MaxInRows(g: seq<seq<int>>, i: nat): int
    requires i <= |g|
  {
    if i == 0 then 0 else MaxInRow(g[i - 1], |g[i - 1]|, MaxInRows(g, i - 1))
  }

  /** maxPoints: the running maximum over the whole grid, row by row. */
  function MaxCount(g: seq<seq<int>>): int {
    MaxInRows(g, |g|)
  }

  lemma {:induction false} MaxInRowBounds(row: seq<int>, j: nat, m: int)
    requires j <= |row|
    ensures MaxInRow(row, j, m) >= m
    ensures forall k :: 0 <= k < j ==> row[k] <= MaxInRow(row, j, m)
    ensures MaxInRow(row, j, m) == m || exists k :: 0 <= k < j && row[k] == MaxInRow(row, j, m)
  {
    if j > 0 {
      MaxInRowBounds(row, j - 1, m);
    }
  }

  lemma {:induction false} MaxInRowsBounds(g: seq<seq<int>>, i: nat)
    requires i <= |g|
    ensures MaxInRows(g, i) >= 0
    ensures forall r, k :: 0 <= r < i && 0 <= k < |g[r]| ==> g[r][k] <= MaxInRows(g, i)
    ensures MaxInRows(g, i) == 0 || exists r, k :: 0 <= r < i && 0 <= k < |g[r]| && g[r][k] == MaxInRows(g, i)
  {
    if i > 0 {
      MaxInRowsBounds(g, i - 1);
      MaxInRowBounds(g[i - 1], |g[i - 1]|, MaxInRows(g, i - 1));
    }
  }

  /** maxPoints is at least every count, and it is 0 or one of the counts. */
  lemma MaxCountIsMaximum(g: seq<seq<int>>)
    ensures MaxCount(g) >= 0
    ensures forall r, k :: 0 <= r < |g| && 0 <= k < |g[r]| ==> g[r][k] <= MaxCount(g)
    ensures MaxCount(g) == 0 || exists r, k :: 0 <= r < |g| && 0 <= k < |g[r]| && g[r][k] == MaxCount(g)
  {
    MaxInRowsBounds(g, |g|);
  }

  // ---- The frozen accumulator ----

  datatype FlameAccumulator = FlameAccumulator(hitCounts: seq<seq<int>>, colorIndexSums: seq<seq<real>>, maxPoints: int)

  /** What build() guarantees: two grids of the same shape, non-negative counts, maxPoints their maximum. */
  predicate WellFormed(acc: FlameAccumulator) {
    && |acc.hitCounts| >= 1
    && IsGrid(acc.hitCounts, |acc.hitCounts[0]|, |acc.hitCounts|)
    && IsGrid(acc.colorIndexSums, |acc.hitCounts[0]|, |acc.hitCounts|)
    && |acc.hitCounts[0]| >= 1
    && (forall i, j :: 0 <= i < |acc.hitCounts| && 0 <= j < |acc.hitCounts[i]| ==> acc.hitCounts[i][j] >= 0)
    && acc.maxPoints == MaxCount(acc.hitCounts)
  }

  /** width(): the length of the first row. */
  function Width(acc: FlameAccumulator): (w: int)
    requires WellFormed(acc)
    ensures w >= 1 && forall i :: 0 <= i < |acc.hitCounts| ==> |acc.hitCounts[i]| == w
  {
    |acc.hitCounts[0]|
  }

  /** height(): the number of rows. */
  function Height(acc: FlameAccumulator): (h: int)
    requires WellFormed(acc)
    ensures h >= 1 && h == |acc.colorIndexSums|
  {
    |acc.hitCounts|
  }

  /** The cells of the grid. */
  predicate InRange(acc: FlameAccumulator, x: int, y: int)
    requires WellFormed(acc)
  {
    0 <= x < Width(acc) && 0 <= y < Height(acc)
  }

  /** The source's coordinate check, x > width() and y > height() rather than >=. */
  predicate PassesCheckAsWritten(acc: FlameAccumulator, x: int, y: int)
    requires WellFormed(acc)
    ensures InRange(acc, x, y) ==> PassesCheckAsWritten(acc, x, y)
  {
    !(x < 0 || x > Width(acc) || y < 0 || y > Height(acc))
  }

  /** The check lets the column width and the row height through: it is one cell too lenient. */
  lemma CheckTooLenient(acc: FlameAccumulator, y: int)
    requires WellFormed(acc) && 0 <= y <= Height(acc)
    ensures PassesCheckAsWritten(acc, Width(acc), y) && !InRange(acc, Width(acc), y)
  {
  }

  /**
   * hitCount: the coordinate check throws IndexOutOfBoundsException, and a
   * coordinate it lets through but the array does not have throws its
   * subclass ArrayIndexOutOfBoundsException.
   */
  function HitCount(acc: FlameAccumulator, x: int, y: int): (r: Result<int>)
    requires WellFormed(acc)
    ensures r.Ok? <==> InRange(acc, x, y)
    ensures r.Err? ==> r.error == IndexOutOfBounds
    ensures r.Ok? ==> r.value == acc.hitCounts[y][x]
    ensures r.Ok? ==> 0 <= r.value <= acc.maxPoints
  {
    MaxCountIsMaximum(acc.hitCounts);
    if !PassesCheckAsWritten(acc, x, y) then Err(IndexOutOfBounds)
    else if !InRange(acc, x, y) then Err(IndexOutOfBounds)
    else Ok(acc.hitCounts[y][x])
  }

  /** a / b for 0 <= a <= b and 0 < b. */
  lemma RatioInUnit(a: real, b: real)
    requires 0.0 <= a <= b && 0.0 < b
    ensures 0.0 <= a / b <= 1.0
    ensures a / b == 0.0 <==> a == 0.0
    ensures a / b == 1.0 <==> a == b
  {
    assert Times(a / b, b) == a;
    TimesNonNegative(a / b, b);
    TimesNonNegative(b - a, 1.0 / b);
    assert Times(b - a, 1.0 / b) == 1.0 - a / b;
  }

  /**
   * intensity, as written: log(count + 1) / log(maxPoints + 1). With no hit
   * at all both logarithms are log 1 = 0 and the quotient 0 / 0 is not a
   * number (None).
   */
  function IntensityAsWritten(m: Transcendental, acc: FlameAccumulator, x: int, y: int): (r: Result<Option<real>>)
    requires WellFormed(acc)
    ensures r.Ok? <==> InRange(acc, x, y)
    ensures r.Err? ==> r.error == IndexOutOfBounds
  {
    if !PassesCheckAsWritten(acc, x, y) then Err(IndexOutOfBounds)
    else if !InRange(acc, x, y) then Err(IndexOutOfBounds)
    else
      var b := m.log((acc.maxPoints + 1) as real);
      if b == 0.0 then Ok(None) else Ok(Some(m.log((acc.hitCounts[y][x] + 1) as real) / b))
  }

  /** An accumulator without hits has no defined intensity anywhere. */
  lemma IntensityUndefinedWithoutHits(m: Transcendental, acc: FlameAccumulator, x: int, y: int)
    requires LogLaw(m.log) && WellFormed(acc) && InRange(acc, x, y)
    requires acc.maxPoints == 0
    ensures IntensityAsWritten(m, acc, x, y) == Ok(None)
  {
  }

  /** intensity with the empty case read as 0: the logarithmic brightness of a cell, in [0, 1]. */
  function Intensity(m: Transcendental, acc: FlameAccumulator, x: int, y: int): (r: Result<real>)
    requires LogLaw(m.log) && WellFormed(acc)
    ensures r.Ok? <==> InRange(acc, x, y)
    ensures r.Err? ==> r.error == IndexOutOfBounds
    ensures r.Ok? && acc.maxPoints != 0 ==> IntensityAsWritten(m, acc, x, y) == Ok(Some(r.value))
  {
    if !PassesCheckAsWritten(acc, x, y) then Err(IndexOutOfBounds)
    else if !InRange(acc, x, y) then Err(IndexOutOfBounds)
    else if acc.maxPoints == 0 then Ok(0.0)
    else
      LogOrder(m, 1.0, (acc.maxPoints + 1) as real);
      Ok(m.log((acc.hitCounts[y][x] + 1) as real) / m.log((acc.maxPoints + 1) as real))
  }

  /**
   * The intensity lies in [0, 1]; it is 0 exactly on cells without hits and
   * 1 exactly on the cells with the most hits (when there is a hit).
   */
  lemma IntensityBounds(m: Transcendental, acc: FlameAccumulator, x: int, y: int)
    requires LogLaw(m.log) && WellFormed(acc) && InRange(acc, x, y)
    ensures 0.0 <= Intensity(m, acc, x, y).value <= 1.0
    ensures Intensity(m, acc, x, y).value == 0.0 <==> acc.hitCounts[y][x] == 0
    ensures Intensity(m, acc, x, y).value == 1.0 <==> acc.maxPoints > 0 && acc.hitCounts[y][x] == acc.maxPoints
  {
    MaxCountIsMaximum(acc.hitCounts);
    var count := acc.hitCounts[y][x];
    if acc.maxPoints > 0 {
      LogOrder(m, 1.0, (count + 1) as real);
      LogOrder(m, (count + 1) as real, (acc.maxPoints + 1) as real);
      LogOrder(m, 1.0, (acc.maxPoints + 1) as real);
      RatioInUnit(m.log((count + 1) as real), m.log((acc.maxPoints + 1) as real));
    }
  }

  /**
   * The intensity grows with the hit count: a cell with no more hits than
   * another is no brighter, and two cells are equally bright exactly when
   * they have the same count.
   */
  lemma IntensityMonotone(m: Transcendental, acc: FlameAccumulator, x1: int, y1: int, x2: int, y2: int)
    requires LogLaw(m.log) && WellFormed(acc) && InRange(acc, x1, y1) && InRange(acc, x2, y2)
    requires acc.hitCounts[y1][x1] <= acc.hitCounts[y2][x2]
    ensures Intensity(m, acc, x1, y1).value <= Intensity(m, acc, x2, y2).value
    ensures Intensity(m, acc, x1, y1).value == Intensity(m, acc, x2, y2).value
            <==> acc.hitCounts[y1][x1] == acc.hitCounts[y2][x2]
  {
    MaxCountIsMaximum(acc.hitCounts);
    if acc.maxPoints > 0 {
      var a1 := m.log((acc.hitCounts[y1][x1] + 1) as real);
      var a2 := m.log((acc.hitCounts[y2][x2] + 1) as real);
      var b := m.log((acc.maxPoints + 1) as real);
      LogOrder(m, (acc.hitCounts[y1][x1] + 1) as real, (acc.hitCounts[y2][x2] + 1) as real);
      LogOrder(m, 1.0, (acc.maxPoints + 1) as real);
      QuotientOrder(a1, a2, b);
    }
  }

  /** Dividing by a positive number keeps the order of two numbers and their equality. */
  lemma QuotientOrder(a1: real, a2: real, b: real)
    requires a1 <= a2 && 0.0 < b
    ensures a1 / b <= a2 / b
    ensures a1 / b == a2 / b <==> a1 == a2
  {
    TimesNonNegative(a2 - a1, 1.0 / b);
    assert Times(a2 - a1, 1.0 / b) == a2 / b - a1 / b;
    assert Times(a2 / b - a1 / b, b) == a2 - a1;
  }

  /** log is non-decreasing, and equal only at equal arguments. */
  lemma LogOrder(m: Transcendental, a: real, b: real)
    requires LogLaw(m.log) && 0.0 < a <= b
    ensures m.log(a) <= m.log(b)
    ensures m.log(a) == m.log(b) <==> a == b
  {
  }

  /**
   * color: the background where the cell has no hit, otherwise the palette's
   * colour for the cell's mean colour index mixed with the background in
   * proportion to the intensity. Coordinates outside the grid fail.
   */
  function Color(m: Transcendental, acc: FlameAccumulator, palette: P.Palette, background: Colors.Color, x: int, y: int)
    : (r: Result<Colors.Color>)
    requires LogLaw(m.log) && WellFormed(acc) && P.PaletteWellFormed(palette) && InGamut(background)
    ensures !InRange(acc, x, y) ==> r == Err(IllegalArgument)
    ensures InRange(acc, x, y) && acc.hitCounts[y][x] == 0 ==> r == Ok(background)
    ensures InRange(acc, x, y) && acc.hitCounts[y][x] > 0 ==>
              var mean := acc.colorIndexSums[y][x] / acc.hitCounts[y][x] as real;
              (r.Ok? <==> 0.0 <= mean <= 1.0) && (r.Ok? ==> InGamut(r.value))
              && (r.Err? ==> r.error == IllegalArgument)
              && (0.0 <= mean <= 1.0 ==>
                    r == MixWith(P.PaletteColorForIndex(palette, mean).value, background, Intensity(m, acc, x, y).value))
  {
    if !InRange(acc, x, y) then Err(IllegalArgument)
    else
      IntensityBounds(m, acc, x, y);
      var proportion := Intensity(m, acc, x, y).value;
      if proportion == 0.0 then Ok(background)
      else
        var base := P.PaletteColorForIndex(palette, acc.colorIndexSums[y][x] / acc.hitCounts[y][x] as real);
        if base.Err? then Err(base.error) else MixWith(base.value, background, proportion)
  }

  /**
   * color as written: the lenient check lets x == width() through to intensity,
   * whose array access throws IndexOutOfBounds; and with no hit at all the
   * intensity is 0 / 0, so every colour comes out not a number (None).
   */
  function ColorAsWritten(m: Transcendental, acc: FlameAccumulator, palette: P.Palette, background: Colors.Color, x: int, y: int)
    : (r: Result<Option<Colors.Color>>)
    requires LogLaw(m.log) && WellFormed(acc) && P.PaletteWellFormed(palette) && InGamut(background)
    ensures InRange(acc, x, y) && acc.maxPoints > 0 ==> r == (var c := Color(m, acc, palette, background, x, y); if c.Ok? then Ok(Some(c.value)) else Err(c.error))
  {
    if x < 0 || y < 0 || x > Width(acc) || y > Height(acc) then Err(IllegalArgument)
    else
      var proportion := IntensityAsWritten(m, acc, x, y);
      if proportion.Err? then Err(proportion.error)
      else if proportion.value.None? then Ok(None)
      else if proportion.value.value == 0.0 then Ok(Some(background))
      else
        IntensityBounds(m, acc, x, y);
        var base := P.PaletteColorForIndex(palette, acc.colorIndexSums[y][x] / acc.hitCounts[y][x] as real);
        if base.Err? then Err(base.error)
        else
          var mixed := MixWith(base.value, background, proportion.value.value);
          if mixed.Err? then Err(mixed.error) else Ok(Some(mixed.value))
  }

  /** At the column width() the source fails with IndexOutOfBounds where IllegalArgument is documented. */
  lemma ColorAtWidthAsWritten(m: Transcendental, acc: FlameAccumulator, palette: P.Palette, background: Colors.Color, y: int)
    requires LogLaw(m.log) && WellFormed(acc) && P.PaletteWellFormed(palette) && InGamut(background)
    requires 0 <= y < Height(acc)
    ensures ColorAsWritten(m, acc, palette, background, Width(acc), y) == Err(IndexOutOfBounds)
    ensures Color(m, acc, palette, background, Width(acc), y) == Err(IllegalArgument)
  {
  }

  /** Without any hit the source gives a colour that is not a number, the model the background. */
  lemma ColorWithoutHitsAsWritten(m: Transcendental, acc: FlameAccumulator, palette: P.Palette, background: Colors.Color, x: int, y: int)
    requires LogLaw(m.log) && WellFormed(acc) && P.PaletteWellFormed(palette) && InGamut(background)
    requires InRange(acc, x, y) && acc.maxPoints == 0
    ensures ColorAsWritten(m, acc, palette, background, x, y) == Ok(None)
    ensures Color(m, acc, palette, background, x, y) == Ok(background)
  {
    MaxCountIsMaximum(acc.hitCounts);
  }

  // ---- The builder ----

  /**
   * FlameAccumulator.Builder: the frame, the grid size, the map to pixel
   * space and the two grids that hit() updates in place.
   */
  class Builder {
    const frame: Rectangle
    const width: int
    const height: int
    const t: A.AffineTransformation
    const counts: array2<int>
    const sums: array2<real>

    ghost predicate Valid()
      reads this, counts
    {
      && Rectangles.Valid(frame) && 0 < width && 0 < height
      && t == PixelTransform(frame, width, height)
      && counts.Length0 == height && counts.Length1 == width
      && sums.Length0 == height && sums.Length1 == width
      && forall i, j :: 0 <= i < height && 0 <= j < width ==> counts[i, j] >= 0
    }

    /** The hit counts so far, row by row. */
    function Counts(): seq<seq<int>>
      reads this, counts
    {
      seq(counts.Length0, i requires 0 <= i < counts.Length0 reads counts =>
        seq(counts.Length1, j requires 0 <= j < counts.Length1 reads counts => counts[i, j]))
    }

    /** The colour-index sums so far, row by row. */
    function Sums(): seq<seq<real>>
      reads this, sums
    {
      seq(sums.Length0, i requires 0 <= i < sums.Length0 reads sums =>
        seq(sums.Length1, j requires 0 <= j < sums.Length1 reads sums => sums[i, j]))
    }

    /** Builder(frame, width, height) once the sizes are known to be positive: two grids of zeros. */
    constructor (frame: Rectangle, width: int, height: int)
      requires Rectangles.Valid(frame) && 0 < width && 0 < height
      ensures Valid() && fresh(counts) && fresh(sums)
      ensures this.frame == frame && this.width == width && this.height == height
      ensures Counts() == Constant(width, height, 0) && Sums() == Constant(width, height, 0.0)
    {
      this.frame := frame;
      this.width := width;
      this.height := height;
      t := PixelTransform(frame, width, height);
      counts := new int[height, width]((i, j) => 0);
      sums := new real[height, width]((i, j) => 0.0);
      new;
      GridsEqual(Counts(), Constant(width, height, 0), width, height);
      GridsEqual(Sums(), Constant(width, height, 0.0), width, height);
    }

    /** The constructor's check: a size that is not positive fails. */
    static method Create(frame: Rectangle, width: int, height: int) returns (r: Result<Builder>)
      requires Rectangles.Valid(frame)
      ensures r.Err? <==> width <= 0 || height <= 0
      ensures r.Err? ==> r.error == IllegalArgument
      ensures r.Ok? ==> fresh(r.value) && fresh(r.value.counts) && fresh(r.value.sums) && r.value.Valid()
      ensures r.Ok? ==> r.value.frame == frame && r.value.width == width && r.value.height == height
      ensures r.Ok? ==> r.value.Counts() == Constant(width, height, 0) && r.value.Sums() == Constant(width, height, 0.0)
    {
      if width <= 0 || height <= 0 {
        return Err(IllegalArgument);
      }
      var b := new Builder(frame, width, height);
      r := Ok(b);
    }

    /**
     * hit: when the frame contains p, adds one to the count of p's cell and c
     * to its colour-index sum; otherwise changes nothing.
     */
    method Hit(p: Option<Point>, c: real)
      requires Valid()
      modifies counts, sums
      ensures Valid()
      ensures Counts() == AddHit(old(Counts()), Cell(frame, width, height, p))
      ensures Sums() == AddColor(old(Sums()), Cell(frame, width, height, p), c)
    {
      ghost var cell := Cell(frame, width, height, p);
      if p.Some? && Contains(frame, p.value) {
        PixelTransformIsPixelPosition(frame, width, height);
        var q := A.TransformPoint(t, p.value);
        assert cell == Some((Row(height, q), Column(q)));
        var y, x := PixelCell(height, q);
        AddAt(y, x, c);
      } else {
        assert cell == None;
      }
    }

    /** The cell of hit's pixel space position q: (int) (height - y) kept inside the grid, and (int) x. */
    static method PixelCell(height: int, q: Point) returns (y: int, x: int)
      ensures y == Row(height, q) && x == Column(q)
    {
      y := Trunc(height as real - q.y);
      if y >= height {
        y := height - 1;
      }
      x := Trunc(q.x);
    }

    /** The two increments of hit in the cell (y, x). */
    method AddAt(y: int, x: int, c: real)
      requires Valid() && 0 <= y < height && 0 <= x < width
      modifies counts, sums
      ensures Valid()
      ensures Counts() == AddHit(old(Counts()), Some((y, x)))
      ensures Sums() == AddColor(old(Sums()), Some((y, x)), c)
    {
      ghost var oldCounts, oldSums := Counts(), Sums();
      counts[y, x] := counts[y, x] + 1;
      sums[y, x] := sums[y, x] + c;
      GridsEqual(Counts(), AddHit(oldCounts, Some((y, x))), width, height);
      GridsEqual(Sums(), AddColor(oldSums, Some((y, x)), c), width, height);
    }

    /**
     * build(): freezes copies of the grids, computing the largest count row
     * by row as the private constructor does.
     */
    method Build() returns (acc: FlameAccumulator)
      requires Valid()
      ensures WellFormed(acc)
      ensures acc == FlameAccumulator(Counts(), Sums(), MaxCount(Counts()))
    {
      ghost var g := Counts();
      var maxPoints := 0;
      var rows: seq<seq<int>> := [];
      for i := 0 to height
        invariant rows == g[..i]
        invariant maxPoints == MaxInRows(g, i)
      {
        var row;
        row, maxPoints := CopyRow(i, maxPoints);
        assert |g[i]| == width;
        assert g[..i + 1] == g[..i] + [g[i]];
        rows := rows + [row];
      }
      assert rows == g;
      GridsShape();
      acc := FlameAccumulator(rows, Sums(), maxPoints);
    }

    /** The grids of a valid builder have its size, and its counts are non-negative. */
    lemma GridsShape()
      requires Valid()
      ensures IsGrid(Counts(), width, height) && IsGrid(Sums(), width, height)
      ensures forall i, j :: 0 <= i < height && 0 <= j < width ==> Counts()[i][j] >= 0
    {
    }

    /** One row of build(): the row's counts, and the running maximum carried across it. */
    method CopyRow(i: int, max0: int) returns (row: seq<int>, max: int)
      requires Valid() && 0 <= i < height
      ensures row == Counts()[i]
      ensures max == MaxInRow(Counts()[i], width, max0)
    {
      row := [];
      max := max0;
      for j := 0 to width
        invariant row == Counts()[i][..j]
        invariant max == MaxInRow(Counts()[i], j, max0)
      {
        row := row + [counts[i, j]];
        max := Larger(max, counts[i, j]);
      }
    }
  }

  /** Every hit the frame contains is counted exactly once in the builder's grid. */
  method HitThenCount(b: Builder, p: Option<Point>, c: real) returns (before: int, after: int)
    requires b.Valid()
    modifies b.counts, b.sums
    ensures after == before + (if p.Some? && Contains(b.frame, p.value) then 1 else 0)
  {
    before := Total(b.Counts());
    HitCountsOnce(b.frame, b.width, b.height, b.Counts(), p);
    b.Hit(p, c);
    after := Total(b.Counts());
  }
}
