/**
 * Flames (flame/Flame.java): a list of flame transformations, the chaos game
 * that renders them into an accumulator, and a builder that edits the list.
 * The transformation picked at each step is an input (the source draws it
 * from java.util.Random seeded with 2013).
 */
module Flames {
  import opened Wrappers
  import opened RealMath
  import opened Points
  import opened Rectangles
  import A = AffineTransformations
  import V = Variations
  import FT = FlameTransformations
  import Acc = FlameAccumulators

  datatype Flame = Flame(transformations: seq<FT.FlameTransformation>)

  /** Every transformation of the list has one weight per variation. */
  predicate WellFormed(flame: Flame) {
    forall i :: 0 <= i < |flame.transformations| ==> FT.WellFormed(flame.transformations[i])
  }

  // ---- The base colour indices ----

  /** The least L with 2^L >= i. */
  function CeilLog2(i: nat): nat
    requires i >= 1
  {
    if i == 1 then 0 else 1 + CeilLog2((i + 1) / 2)
  }

  /** CeilLog2(i) is the exponent of the least power of two not below i. */
  lemma {:induction false} CeilLog2Bounds(i: nat)
    requires i >= 1
    ensures i <= Pow2(CeilLog2(i))
    ensures i >= 2 ==> CeilLog2(i) >= 1 && Pow2(CeilLog2(i) - 1) < i
  {
    if i >= 2 {
      CeilLog2Bounds((i + 1) / 2);
    }
  }

  /**
   * The base colour index of transformation i: 0 for the first, 1 for the
   * second, and (i - 2^(L-1)) / 2^L with L = ceil(log2 i) after that, which
   * spreads the indices over (0, 1/2].
   */
  function BaseColorIndex(i: nat): real {
    if i == 0 then 0.0
    else if i == 1 then 1.0
    else (i as real - Pow2(CeilLog2(i)) as real / 2.0) / Pow2(CeilLog2(i)) as real
  }

  /** Every base colour index lies in [0, 1], and those after the second in (0, 1/2]. */
  lemma BaseColorIndexInUnit(i: nat)
    ensures 0.0 <= BaseColorIndex(i) <= 1.0
    ensures i >= 2 ==> 0.0 < BaseColorIndex(i) <= 0.5
  {
    if i >= 2 {
      CeilLog2Bounds(i);
      HalvedOffset(i as real, Pow2(CeilLog2(i)) as real);
    }
  }

  /** For P/2 < i <= P the offset (i - P/2) / P lies in (0, 1/2]. */
  lemma HalvedOffset(i: real, p: real)
    requires 0.0 < p && p / 2.0 < i <= p
    ensures 0.0 < (i - p / 2.0) / p <= 0.5
  {
    var a := i - p / 2.0;
    TimesPositive(a, 1.0 / p);
    assert Times(a, 1.0 / p) == a / p;
    TimesNonNegative(p - i, 1.0 / p);
    assert Times(p - i, 1.0 / p) == 0.5 - a / p;
  }

  /** The first indices: 0, 1, 1/2, 1/4, 1/2, 1/8. */
  lemma FirstBaseColorIndices()
    ensures BaseColorIndex(0) == 0.0 && BaseColorIndex(1) == 1.0 && BaseColorIndex(2) == 0.5
    ensures BaseColorIndex(3) == 0.25 && BaseColorIndex(4) == 0.5 && BaseColorIndex(5) == 0.125
  {
    assert CeilLog2(2) == 1 && CeilLog2(3) == 2 && CeilLog2(4) == 2 && CeilLog2(5) == 3;
  }

  /** Math.pow(2, k) for an int k. */
  function PowerOfTwo(k: int): real {
    if k >= 0 then Pow2(k) as real else 1.0 / Pow2(-k) as real
  }

  /**
   * The source's table entry: its exponent is (int) (ceil(ln i) / ln 2), the
   * ceiling taken of the natural logarithm before the change of base.
   */
  function ColorIndexAsWritten(m: Transcendental, i: nat): real
    requires LogLaw(m.log)
  {
    if i == 0 then 0.0
    else if i == 1 then 1.0
    else
      assert m.log(1.0) < m.log(2.0);
      (i as real - PowerOfTwo(Trunc(Ceil(m.log(i as real)) as real / m.log(2.0))) / 2.0)
        / PowerOfTwo(Trunc(Ceil(m.log(i as real)) as real / m.log(2.0)))
  }

  /**
   * With ln 7 in (1, 2] and ln 2 in (2/3, 1] (ln 7 = 1.9459..., ln 2 = 0.6931...)
   * the source's exponent for 7 is 2 instead of 3, so its entry is 5/4, above 1,
   * where the intended one is 3/8.
   */
  lemma ColorIndexSevenAsWritten(m: Transcendental)
    requires LogLaw(m.log)
    requires 1.0 < m.log(7.0) <= 2.0 && 2.0 / 3.0 < m.log(2.0) <= 1.0
    ensures ColorIndexAsWritten(m, 7) == 1.25
    ensures BaseColorIndex(7) == 0.375
  {
    assert Ceil(m.log(7.0)) == 2;
    assert 2.0 <= 2.0 / m.log(2.0) < 3.0 by {
      assert 2.0 / m.log(2.0) * m.log(2.0) == 2.0;
    }
    assert Trunc(2.0 / m.log(2.0)) == 2;
    assert PowerOfTwo(2) == 4.0;
    assert CeilLog2(7) == 3;
  }

  // ---- The chaos game ----

  /** The wandering point (None once it is not a number) and the running colour index. */
  datatype State = State(p: Option<Point>, c: real)

  const START: State := State(Some(ORIGIN), 0.0)

  /** The picks are positions in the list, as Random.nextInt(size) returns. */
  predicate ValidDraws(flame: Flame, draws: seq<int>) {
    forall i :: 0 <= i < |draws| ==> 0 <= draws[i] < |flame.transformations|
  }

  /**
   * One step: average in transformation k's entry of the colour-index table
   * and move the point by transformation k.
   */
  function Step(m: Transcendental, flame: Flame, table: seq<real>, s: State, k: int): State
    requires WellFormed(flame) && |table| == |flame.transformations| && 0 <= k < |flame.transformations|
  {
    State(if s.p.Some? then FT.Apply(m, flame.transformations[k], s.p.value) else None,
          (table[k] + s.c) / 2.0)
  }

  /** The state after the first n picks. */
  function StateAfter(m: Transcendental, flame: Flame, table: seq<real>, draws: seq<int>, n: nat): State
    requires WellFormed(flame) && |table| == |flame.transformations| && ValidDraws(flame, draws) && n <= |draws|
  {
    if n == 0 then START else Step(m, flame, table, StateAfter(m, flame, table, draws, n - 1), draws[n - 1])
  }

  /** Every entry of a colour-index table lies in [0, 1]. */
  predicate InUnit(table: seq<real>) {
    forall k :: 0 <= k < |table| ==> 0.0 <= table[k] <= 1.0
  }

  /**
   * With a table whose entries lie in [0, 1] the colour index stays in
   * [0, 1]: each step averages it with such an entry.
   */
  lemma {:induction false} ColorIndexInUnit(m: Transcendental, flame: Flame, table: seq<real>, draws: seq<int>, n: nat)
    requires WellFormed(flame) && |table| == |flame.transformations| && ValidDraws(flame, draws) && n <= |draws|
    requires InUnit(table)
    ensures 0.0 <= StateAfter(m, flame, table, draws, n).c <= 1.0
  {
    if n > 0 {
      ColorIndexInUnit(m, flame, table, draws, n - 1);
    }
  }

  /** The table the model fills: the base colour indices of the positions of the list. */
  function CorrectedTable(size: nat): (table: seq<real>)
    ensures |table| == size && InUnit(table)
    ensures forall k :: 0 <= k < size ==> table[k] == BaseColorIndex(k)
  {
    forall k | 0 <= k < size
      ensures 0.0 <= BaseColorIndex(k) <= 1.0
    {
      BaseColorIndexInUnit(k);
    }
    seq(size, k requires 0 <= k => BaseColorIndex(k))
  }

  /** The table the source fills. */
  function TableAsWritten(m: Transcendental, size: nat): (table: seq<real>)
    requires LogLaw(m.log)
    ensures |table| == size
    ensures forall k :: 0 <= k < size ==> table[k] == ColorIndexAsWritten(m, k)
  {
    seq(size, k requires 0 <= k => ColorIndexAsWritten(m, k))
  }

  /**
   * Driven by the source's table, a flame of eight transformations or more
   * whose first three picks are transformation 7 has a colour index above 1
   * after three steps, which no palette accepts.
   */
  lemma ColorIndexLeavesUnitInGameAsWritten(m: Transcendental, flame: Flame, draws: seq<int>)
    requires LogLaw(m.log)
    requires 1.0 < m.log(7.0) <= 2.0 && 2.0 / 3.0 < m.log(2.0) <= 1.0
    requires WellFormed(flame) && 8 <= |flame.transformations| && ValidDraws(flame, draws)
    requires 3 <= |draws| && draws[0] == 7 && draws[1] == 7 && draws[2] == 7
    ensures StateAfter(m, flame, TableAsWritten(m, |flame.transformations|), draws, 3).c > 1.0
  {
    var table := TableAsWritten(m, |flame.transformations|);
    ColorIndexSevenAsWritten(m);
    assert table[7] == 1.25;
    assert StateAfter(m, flame, table, draws, 1).c == 0.625;
    assert StateAfter(m, flame, table, draws, 2).c == 0.9375;
  }

  /** Iteration i (counting from 0) is recorded when i > 20. */
  predicate Recorded(i: nat) {
    i > 20
  }

  /** The counts after the first n iterations. */
  function CountsAfter(m: Transcendental, flame: Flame, table: seq<real>, draws: seq<int>, frame: Rectangle, width: int, height: int, n: nat)
    : (g: seq<seq<int>>)
    requires WellFormed(flame) && |table| == |flame.transformations| && ValidDraws(flame, draws) && n <= |draws|
    requires Rectangles.Valid(frame) && 0 < width && 0 < height
    ensures Acc.IsGrid(g, width, height)
  {
    if n == 0 then Acc.Constant(width, height, 0)
    else if Recorded(n - 1) then
      Acc.AddHit(CountsAfter(m, flame, table, draws, frame, width, height, n - 1),
                 Acc.Cell(frame, width, height, StateAfter(m, flame, table, draws, n).p))
    else CountsAfter(m, flame, table, draws, frame, width, height, n - 1)
  }

  /** The colour-index sums after the first n iterations. */
  function SumsAfter(m: Transcendental, flame: Flame, table: seq<real>, draws: seq<int>, frame: Rectangle, width: int, height: int, n: nat)
    : (g: seq<seq<real>>)
    requires WellFormed(flame) && |table| == |flame.transformations| && ValidDraws(flame, draws) && n <= |draws|
    requires Rectangles.Valid(frame) && 0 < width && 0 < height
    ensures Acc.IsGrid(g, width, height)
  {
    if n == 0 then Acc.Constant(width, height, 0.0)
    else if Recorded(n - 1) then
      Acc.AddColor(SumsAfter(m, flame, table, draws, frame, width, height, n - 1),
                   Acc.Cell(frame, width, height, StateAfter(m, flame, table, draws, n).p),
                   StateAfter(m, flame, table, draws, n).c)
    else SumsAfter(m, flame, table, draws, frame, width, height, n - 1)
  }

  /** The number of iterations: m + 20 with m = density * width * height, all in 32-bit int arithmetic. */
  function Iterations(density: int, width: int, height: int): (n: nat)
    ensures n < 0x8000_0000
    ensures -0x8000_0000 <= density * width < 0x8000_0000 && -0x8000_0000 <= density * width * height < 0x8000_0000 - 20 ==>
              n == if density * width * height + 20 > 0 then density * width * height + 20 else 0
  {
    var bound := Int32(Int32(Int32(density * width) * height) + 20);
    if bound > 0 then bound else 0
  }

  /** The number of recorded iterations among the first n. */
  function RecordedCount(n: nat): (r: nat)
    ensures r <= n
  {
    if n == 0 then 0 else RecordedCount(n - 1) + (if Recorded(n - 1) then 1 else 0)
  }

  lemma {:induction false} RecordedCountIs(n: nat)
    ensures RecordedCount(n) == if n > 21 then n - 21 else 0
  {
    if n > 0 {
      RecordedCountIs(n - 1);
    }
  }

  lemma ProductBounds(d: int, w: int, h: int)
    requires 0 <= d && 1 <= w && 1 <= h
    ensures 0 <= d * w <= d * w * h
  {
    assert d * w * h == d * w + d * w * (h - 1);
  }

  /**
   * Without overflow the loop runs m + 20 times and records every iteration
   * after the 21st: m - 1 hits, one fewer than the m points the warm-up
   * of 20 leaves.
   */
  lemma RecordedHits(density: int, width: int, height: int)
    requires 0 <= density && 1 <= width && 1 <= height
    requires density * width * height + 20 < 0x8000_0000
    ensures Iterations(density, width, height) == density * width * height + 20
    ensures RecordedCount(Iterations(density, width, height))
         == if density * width * height >= 1 then density * width * height - 1 else 0
  {
    ProductBounds(density, width, height);
    RecordedCountIs(Iterations(density, width, height));
  }

  /** The number of recorded iterations among the first n whose point the frame contains. */
  function InFrameCount(m: Transcendental, flame: Flame, table: seq<real>, draws: seq<int>, frame: Rectangle, n: nat): (r: nat)
    requires WellFormed(flame) && |table| == |flame.transformations| && ValidDraws(flame, draws) && n <= |draws|
    ensures r <= RecordedCount(n)
  {
    if n == 0 then 0
    else
      var p := StateAfter(m, flame, table, draws, n).p;
      InFrameCount(m, flame, table, draws, frame, n - 1) + (if Recorded(n - 1) && p.Some? && Contains(frame, p.value) then 1 else 0)
  }

  lemma {:induction false} TotalOfZeros(width: nat, height: nat)
    ensures Acc.Total(Acc.Constant(width, height, 0)) == 0
  {
    if height > 0 {
      assert Acc.Constant(width, height, 0)[..height - 1] == Acc.Constant(width, height - 1, 0);
      TotalOfZeros(width, height - 1);
      RowOfZeros(width);
    }
  }

  lemma {:induction false} RowOfZeros(width: nat)
    ensures Acc.RowTotal(seq(width, j => 0)) == 0
  {
    if width > 0 {
      assert seq(width, j => 0)[..width - 1] == seq(width - 1, j => 0);
      RowOfZeros(width - 1);
    }
  }

  /**
   * The grid's total count is the number of recorded points the frame
   * contains, so at most the number of recorded iterations.
   */
  lemma {:induction false} TotalCountsAfter(m: Transcendental, flame: Flame, table: seq<real>, draws: seq<int>, frame: Rectangle, width: int, height: int, n: nat)
    requires WellFormed(flame) && |table| == |flame.transformations| && ValidDraws(flame, draws) && n <= |draws|
    requires Rectangles.Valid(frame) && 0 < width && 0 < height
    ensures Acc.Total(CountsAfter(m, flame, table, draws, frame, width, height, n)) == InFrameCount(m, flame, table, draws, frame, n)
    ensures InFrameCount(m, flame, table, draws, frame, n) <= RecordedCount(n)
  {
    if n == 0 {
      TotalOfZeros(width, height);
    } else {
      TotalCountsAfter(m, flame, table, draws, frame, width, height, n - 1);
      if Recorded(n - 1) {
        Acc.HitCountsOnce(frame, width, height, CountsAfter(m, flame, table, draws, frame, width, height, n - 1),
                          StateAfter(m, flame, table, draws, n).p);
      }
    }
  }

  /** The one transformation (identity, Linear only). */
  const LINEAR_IDENTITY: FT.FlameTransformation := FT.FlameTransformation(A.IDENTITY, FT.LINEAR_ONLY)

  /**
   * A flame made of the identity with weight on Linear alone: its first step
   * already evaluates Spherical at the origin, so the point is not a number
   * from then on.
   */
  lemma {:induction false} IdentityFlameIsUndefined(m: Transcendental, table: seq<real>, draws: seq<int>, n: nat)
    requires SqrtLaw(m.sqrt)
    requires |table| == 1 && ValidDraws(Flame([LINEAR_IDENTITY]), draws) && 1 <= n <= |draws|
    ensures StateAfter(m, Flame([LINEAR_IDENTITY]), table, draws, n).p == None
  {
    var flame := Flame([LINEAR_IDENTITY]);
    if n == 1 {
      FirstStep(m, flame, table, draws);
      assert flame.transformations[draws[0]] == LINEAR_IDENTITY;
      IdentityUndefinedAtOrigin(m);
    } else {
      IdentityFlameIsUndefined(m, table, draws, n - 1);
      StaysUndefined(m, flame, table, draws, n);
    }
  }

  /** The identity with weight on Linear alone evaluates Spherical at the origin. */
  lemma IdentityUndefinedAtOrigin(m: Transcendental)
    requires SqrtLaw(m.sqrt)
    ensures FT.Apply(m, LINEAR_IDENTITY, ORIGIN) == None
  {
    A.IdentityFixesPoints(ORIGIN);
    FT.UndefinedIffAffineImageIsOrigin(m, LINEAR_IDENTITY, ORIGIN);
  }

  /** A point that is not a number stays so. */
  lemma StaysUndefined(m: Transcendental, flame: Flame, table: seq<real>, draws: seq<int>, n: nat)
    requires WellFormed(flame) && |table| == |flame.transformations| && ValidDraws(flame, draws) && 1 <= n <= |draws|
    requires StateAfter(m, flame, table, draws, n - 1).p == None
    ensures StateAfter(m, flame, table, draws, n).p == None
  {
  }

  /** The first step moves the origin. */
  lemma FirstStep(m: Transcendental, flame: Flame, table: seq<real>, draws: seq<int>)
    requires WellFormed(flame) && |table| == |flame.transformations| && ValidDraws(flame, draws) && 1 <= |draws|
    ensures StateAfter(m, flame, table, draws, 1).p == FT.Apply(m, flame.transformations[draws[0]], ORIGIN)
  {
    assert StateAfter(m, flame, table, draws, 0) == START;
  }

  /** Hence that flame records no hit at all, whatever the frame and the draws. */
  lemma IdentityFlameRecordsNothing(m: Transcendental, table: seq<real>, draws: seq<int>, frame: Rectangle, width: int, height: int, n: nat)
    requires SqrtLaw(m.sqrt)
    requires |table| == 1 && ValidDraws(Flame([LINEAR_IDENTITY]), draws) && n <= |draws|
    requires Rectangles.Valid(frame) && 0 < width && 0 < height
    ensures Acc.Total(CountsAfter(m, Flame([LINEAR_IDENTITY]), table, draws, frame, width, height, n)) == 0
  {
    TotalCountsAfter(m, Flame([LINEAR_IDENTITY]), table, draws, frame, width, height, n);
    NoneInFrame(m, table, draws, frame, n);
  }

  lemma {:induction false} NoneInFrame(m: Transcendental, table: seq<real>, draws: seq<int>, frame: Rectangle, n: nat)
    requires SqrtLaw(m.sqrt)
    requires |table| == 1 && ValidDraws(Flame([LINEAR_IDENTITY]), draws) && n <= |draws|
    ensures InFrameCount(m, Flame([LINEAR_IDENTITY]), table, draws, frame, n) == 0
  {
    if n > 0 {
      NoneInFrame(m, table, draws, frame, n - 1);
      IdentityFlameIsUndefined(m, table, draws, n);
    }
  }

  /** The loop filling colorIndexTab, with the exponent ceil(log2 i) computed exactly. */
  method FillColorIndexTable(colorIndexTab: array<real>)
    requires colorIndexTab.Length >= 1
    modifies colorIndexTab
    ensures forall k :: 0 <= k < colorIndexTab.Length ==> colorIndexTab[k] == BaseColorIndex(k)
  {
    colorIndexTab[0] := 0.0;
    for i := 1 to colorIndexTab.Length
      invariant forall k :: 0 <= k < i ==> colorIndexTab[k] == BaseColorIndex(k)
    {
      if i > 1 {
        var log2 := CeilLog2(i);
        colorIndexTab[i] := (i as real - Pow2(log2) as real / 2.0) / Pow2(log2) as real;
      } else {
        colorIndexTab[i] := i as real;
      }
    }
  }

  /** The same loop as the source writes it, with the exponent (int) (ceil(ln i) / ln 2). */
  method FillColorIndexTableAsWritten(m: Transcendental, colorIndexTab: array<real>)
    requires LogLaw(m.log) && colorIndexTab.Length >= 1
    modifies colorIndexTab
    ensures colorIndexTab[..] == TableAsWritten(m, colorIndexTab.Length)
  {
    colorIndexTab[0] := 0.0;
    for i := 1 to colorIndexTab.Length
      invariant forall k :: 0 <= k < i ==> colorIndexTab[k] == ColorIndexAsWritten(m, k)
    {
      if i > 1 {
        assert m.log(1.0) < m.log(2.0);
        var log2 := Trunc(Ceil(m.log(i as real)) as real / m.log(2.0));
        colorIndexTab[i] := (i as real - PowerOfTwo(log2) / 2.0) / PowerOfTwo(log2);
      } else {
        colorIndexTab[i] := i as real;
      }
    }
  }

  /** The main loop of compute: n iterations of the chaos game feeding the builder. */
  method RunChaosGame(m: Transcendental, flame: Flame, frame: Rectangle, width: int, height: int,
                      builder: Acc.Builder, colorIndexTab: array<real>, ghost table: seq<real>, n: nat, draws: seq<int>)
    returns (p: Option<Point>, c: real)
    requires WellFormed(flame) && |table| == |flame.transformations| && ValidDraws(flame, draws) && n <= |draws|
    requires builder.Valid() && builder.frame == frame && builder.width == width && builder.height == height
    requires builder.Counts() == Acc.Constant(width, height, 0) && builder.Sums() == Acc.Constant(width, height, 0.0)
    requires colorIndexTab[..] == table
    modifies builder.counts, builder.sums
    ensures builder.Valid()
    ensures State(p, c) == StateAfter(m, flame, table, draws, n)
    ensures builder.Counts() == CountsAfter(m, flame, table, draws, frame, width, height, n)
    ensures builder.Sums() == SumsAfter(m, flame, table, draws, frame, width, height, n)
  {
    p, c := Some(ORIGIN), 0.0;
    for i := 0 to n
      invariant builder.Valid()
      invariant State(p, c) == StateAfter(m, flame, table, draws, i)
      invariant builder.Counts() == CountsAfter(m, flame, table, draws, frame, width, height, i)
      invariant builder.Sums() == SumsAfter(m, flame, table, draws, frame, width, height, i)
    {
      p, c := Iterate(m, flame, frame, width, height, builder, colorIndexTab, table, i, draws, p, c);
    }
  }

  /** Iteration i of the main loop: pick, average the colour index, move the point, record after the 21st. */
  method Iterate(m: Transcendental, flame: Flame, frame: Rectangle, width: int, height: int,
                 builder: Acc.Builder, colorIndexTab: array<real>, ghost table: seq<real>, i: nat, draws: seq<int>, p0: Option<Point>, c0: real)
    returns (p: Option<Point>, c: real)
    requires WellFormed(flame) && |table| == |flame.transformations| && ValidDraws(flame, draws) && i < |draws|
    requires builder.Valid() && builder.frame == frame && builder.width == width && builder.height == height
    requires colorIndexTab[..] == table
    requires State(p0, c0) == StateAfter(m, flame, table, draws, i)
    requires builder.Counts() == CountsAfter(m, flame, table, draws, frame, width, height, i)
    requires builder.Sums() == SumsAfter(m, flame, table, draws, frame, width, height, i)
    modifies builder.counts, builder.sums
    ensures builder.Valid()
    ensures State(p, c) == StateAfter(m, flame, table, draws, i + 1)
    ensures builder.Counts() == CountsAfter(m, flame, table, draws, frame, width, height, i + 1)
    ensures builder.Sums() == SumsAfter(m, flame, table, draws, frame, width, height, i + 1)
  {
    var random := draws[i];
    c := (colorIndexTab[random] + c0) / 2.0;
    p := p0;
    if p.Some? {
      p := FT.TransformPoint(m, flame.transformations[random], p.value);
    }
    assert State(p, c) == Step(m, flame, table, StateAfter(m, flame, table, draws, i), random) == StateAfter(m, flame, table, draws, i + 1);
    if i > 20 {
      builder.Hit(p, c);
      assert builder.Counts() == Acc.AddHit(CountsAfter(m, flame, table, draws, frame, width, height, i), Acc.Cell(frame, width, height, p));
    }
  }

  /**
   * compute: an accumulator builder (which rejects a size that is not
   * positive), the table of base colour indices (whose first entry does not
   * exist for an empty list), then the chaos game from the origin with colour
   * index 0, recording every iteration after the 21st.
   */
  method Compute(m: Transcendental, flame: Flame, frame: Rectangle, width: int, height: int, density: int, draws: seq<int>)
    returns (r: Result<Acc.FlameAccumulator>)
    requires WellFormed(flame) && Rectangles.Valid(frame)
    requires ValidDraws(flame, draws) && (|flame.transformations| > 0 ==> |draws| >= Iterations(density, width, height))
    ensures r.Err? <==> width <= 0 || height <= 0 || |flame.transformations| == 0
    ensures (width <= 0 || height <= 0) ==> r == Err(IllegalArgument)
    ensures 0 < width && 0 < height && |flame.transformations| == 0 ==> r == Err(IndexOutOfBounds)
    ensures r.Ok? ==>
              var n := Iterations(density, width, height);
              var table := CorrectedTable(|flame.transformations|);
              var counts := CountsAfter(m, flame, table, draws, frame, width, height, n);
              r.value == Acc.FlameAccumulator(counts, SumsAfter(m, flame, table, draws, frame, width, height, n), Acc.MaxCount(counts))
  {
    var created := Acc.Builder.Create(frame, width, height);
    if created.Err? {
      return Err(created.error);
    }
    if |flame.transformations| == 0 {
      return Err(IndexOutOfBounds);
    }
    var acc := Render(m, flame, frame, width, height, created.value, Iterations(density, width, height), draws);
    r := Ok(acc);
  }

  /**
   * The rest of compute once the builder exists and the list is not empty:
   * the table of base colour indices, the chaos game and build().
   */
  method Render(m: Transcendental, flame: Flame, frame: Rectangle, width: int, height: int,
                builder: Acc.Builder, n: nat, draws: seq<int>)
    returns (acc: Acc.FlameAccumulator)
    requires WellFormed(flame) && |flame.transformations| > 0 && ValidDraws(flame, draws) && n <= |draws|
    requires builder.Valid() && builder.frame == frame && builder.width == width && builder.height == height
    requires builder.Counts() == Acc.Constant(width, height, 0) && builder.Sums() == Acc.Constant(width, height, 0.0)
    modifies builder.counts, builder.sums
    ensures var counts := CountsAfter(m, flame, CorrectedTable(|flame.transformations|), draws, frame, width, height, n);
            acc == Acc.FlameAccumulator(counts, SumsAfter(m, flame, CorrectedTable(|flame.transformations|), draws, frame, width, height, n), Acc.MaxCount(counts))
  {
    var colorIndexTab := new real[|flame.transformations|];
    FillColorIndexTable(colorIndexTab);
    ghost var table := CorrectedTable(|flame.transformations|);
    assert colorIndexTab[..] == table;
    var p, c := RunChaosGame(m, flame, frame, width, height, builder, colorIndexTab, table, n, draws);
    acc := builder.Build();
  }

  // ---- Flame.Builder ----

  /** checkIndex as written: it rejects a negative index and one above the size, but not the size itself. */
  function CheckIndex(index: int, size: int): (o: Outcome)
    ensures o.Pass? <==> 0 <= index <= size
    ensures o.Fail? ==> o.error == IndexOutOfBounds
  {
    if index < 0 || index > size then Fail(IndexOutOfBounds) else Pass
  }

  /** The range check of java.util.List's get and remove. */
  function ListIndexCheck(index: int, size: int): (o: Outcome)
    ensures o.Pass? <==> 0 <= index < size
    ensures o.Fail? ==> o.error == IndexOutOfBounds
  {
    if 0 <= index < size then Pass else Fail(IndexOutOfBounds)
  }

  /** Both checks in a row, as every indexed operation of the builder performs them. */
  function IndexChecks(index: int, size: int): Outcome {
    if CheckIndex(index, size).Fail? then CheckIndex(index, size) else ListIndexCheck(index, size)
  }

  /**
   * checkIndex lets the size itself through, where the list then throws the
   * same exception; together the two checks accept exactly the positions of
   * the list.
   */
  lemma CheckIndexAdmitsSize(index: int, size: int)
    ensures 0 <= size ==> CheckIndex(size, size) == Pass && ListIndexCheck(size, size) == Fail(IndexOutOfBounds)
    ensures IndexChecks(index, size).Pass? <==> 0 <= index < size
    ensures IndexChecks(index, size).Fail? ==> IndexChecks(index, size).error == IndexOutOfBounds
  {
  }

  /**
   * Flame.Builder: a list of transformation builders, each with a weights
   * array of its own, which the setters change in place.
   */
  class Builder {
    var builders: seq<FT.Builder>

    /** The transformation builders and their weight arrays. */
    ghost function Footprint(): set<object>
      reads this
    {
      (set i | 0 <= i < |builders| :: builders[i] as object) + (set i | 0 <= i < |builders| :: builders[i].weights as object)
    }

    /** Every transformation builder is valid and none shares its object or its weights with another. */
    ghost predicate Valid()
      reads this, Footprint()
    {
      && (forall i :: 0 <= i < |builders| ==> builders[i].Valid())
      && (forall i, j :: 0 <= i < j < |builders| ==> builders[i] != builders[j] && builders[i].weights != builders[j].weights)
    }

    /** The transformations build() would return now. */
    function Transformations(): (ts: seq<FT.FlameTransformation>)
      reads this, Footprint()
      ensures |ts| == |builders|
      ensures Valid() ==> WellFormed(Flame(ts))
    {
      seq(|builders|, i requires 0 <= i < |builders| reads this, Footprint() => builders[i].Current())
    }

    /** Builder(flame): one transformation builder per transformation of the flame, in order. */
    constructor (flame: Flame)
      requires WellFormed(flame)
      ensures Valid() && fresh(Footprint())
      ensures Transformations() == flame.transformations
    {
      var bs: seq<FT.Builder> := [];
      for i := 0 to |flame.transformations|
        invariant |bs| == i
        invariant forall k :: 0 <= k < i ==> fresh(bs[k]) && fresh(bs[k].weights)
        invariant forall k :: 0 <= k < i ==> bs[k].Valid() && bs[k].Current() == flame.transformations[k]
        invariant forall k, l :: 0 <= k < l < i ==> bs[k] != bs[l] && bs[k].weights != bs[l].weights
      {
        var b := new FT.Builder(flame.transformations[i]);
        bs := bs + [b];
      }
      builders := bs;
    }

    /** getTransfoListCopy(): the transformations each builder builds, in order. */
    method TransformationList() returns (list: seq<FT.FlameTransformation>)
      requires Valid()
      ensures list == Transformations()
    {
      list := [];
      for i := 0 to |builders|
        invariant list == Transformations()[..i]
      {
        var t := builders[i].Build();
        list := list + [t];
      }
    }

    /** build(): the flame of the transformations each builder builds. */
    method Build() returns (f: Flame)
      requires Valid()
      ensures WellFormed(f) && f == Flame(Transformations())
    {
      var list := TransformationList();
      f := Flame(list);
    }

    /** transformationCount(). */
    function TransformationCount(): (n: nat)
      reads this, Footprint()
      ensures n == |Transformations()|
    {
      |builders|
    }

    /** addTransformation: a builder for the transformation goes last. */
    method AddTransformation(ft: FT.FlameTransformation)
      requires Valid() && FT.WellFormed(ft)
      modifies this
      ensures Valid() && fresh(Footprint() - old(Footprint()))
      ensures Transformations() == old(Transformations()) + [ft]
    {
      var b := new FT.Builder(ft);
      builders := builders + [b];
    }

    /** removeTransformation: drops the transformation at the index; any other index fails and changes nothing. */
    method RemoveTransformation(index: int) returns (o: Outcome)
      requires Valid()
      modifies this
      ensures Valid() && Footprint() <= old(Footprint())
      ensures o.Pass? <==> 0 <= index < |old(Transformations())|
      ensures o.Pass? ==> Transformations() == old(Transformations())[..index] + old(Transformations())[index + 1..]
      ensures o.Fail? ==> o.error == IndexOutOfBounds && Transformations() == old(Transformations())
    {
      CheckIndexAdmitsSize(index, |builders|);
      o := IndexChecks(index, |builders|);
      if o.Pass? {
        builders := builders[..index] + builders[index + 1..];
      }
    }

    /** affineTransformation(index). */
    function AffineTransformation(index: int): (r: Result<A.AffineTransformation>)
      reads this, Footprint()
      ensures r.Ok? <==> 0 <= index < |Transformations()|
      ensures r.Ok? ==> r.value == Transformations()[index].affine
      ensures r.Err? ==> r.error == IndexOutOfBounds
    {
      CheckIndexAdmitsSize(index, |builders|);
      if IndexChecks(index, |builders|).Fail? then Err(IndexOutOfBounds)
      else Ok(builders[index].GetAffineTransformation())
    }

    /** setAffineTransformation: replaces the affine component of the transformation at the index only. */
    method SetAffineTransformation(index: int, t: A.AffineTransformation) returns (o: Outcome)
      requires Valid()
      modifies set i | 0 <= i < |builders| :: builders[i]
      ensures Valid()
      ensures o.Pass? <==> 0 <= index < |old(Transformations())|
      ensures o.Pass? ==> Transformations() == old(Transformations())[index := old(Transformations())[index].(affine := t)]
      ensures o.Fail? ==> o.error == IndexOutOfBounds && Transformations() == old(Transformations())
    {
      CheckIndexAdmitsSize(index, |builders|);
      o := IndexChecks(index, |builders|);
      if o.Pass? {
        builders[index].SetAffineTransformation(t);
      }
    }

    /** variationWeight(index, variation). */
    function VariationWeight(index: int, v: V.Variation): (r: Result<real>)
      requires Valid()
      reads this, Footprint()
      ensures r.Ok? <==> 0 <= index < |Transformations()|
      ensures r.Ok? ==> r.value == Transformations()[index].weights[V.Index(v)]
      ensures r.Err? ==> r.error == IndexOutOfBounds
    {
      CheckIndexAdmitsSize(index, |builders|);
      if IndexChecks(index, |builders|).Fail? then Err(IndexOutOfBounds)
      else builders[index].GetVariationWeight(V.Index(v))
    }

    /** setVariationWeight: replaces one weight of the transformation at the index only. */
    method SetVariationWeight(index: int, v: V.Variation, w: real) returns (o: Outcome)
      requires Valid()
      modifies set i | 0 <= i < |builders| :: builders[i].weights
      ensures Valid()
      ensures o.Pass? <==> 0 <= index < |old(Transformations())|
      ensures o.Pass? ==> Transformations() == old(Transformations())[index := old(Transformations())[index].(weights := old(Transformations())[index].weights[V.Index(v) := w])]
      ensures o.Fail? ==> o.error == IndexOutOfBounds && Transformations() == old(Transformations())
    {
      CheckIndexAdmitsSize(index, |builders|);
      o := IndexChecks(index, |builders|);
      if o.Pass? {
        var weightSet := builders[index].SetNewWeight(V.Index(v), w);
      }
    }
  }

  /** Builder(flame).build() gives the flame back. */
  method Rebuild(flame: Flame) returns (g: Flame)
    requires WellFormed(flame)
    ensures g == flame
  {
    var b := new Builder(flame);
    g := b.Build();
  }

  /** Adding a transformation and removing it again at the last index gives the flame back. */
  method AddThenRemove(flame: Flame, ft: FT.FlameTransformation) returns (o: Outcome, g: Flame)
    requires WellFormed(flame) && FT.WellFormed(ft)
    ensures o == Pass && g == flame
  {
    var b := new Builder(flame);
    b.AddTransformation(ft);
    o := b.RemoveTransformation(|flame.transformations|);
    g := b.Build();
  }

  /** An affine component set at an index reads back there, and the rest of the flame is kept. */
  method SetAffineThenRead(flame: Flame, index: int, t: A.AffineTransformation)
    returns (r: Result<A.AffineTransformation>, g: Flame)
    requires WellFormed(flame)
    ensures 0 <= index < |flame.transformations| ==>
              r == Ok(t) && g.transformations == flame.transformations[index := flame.transformations[index].(affine := t)]
    ensures !(0 <= index < |flame.transformations|) ==> r == Err(IndexOutOfBounds) && g == flame
  {
    var b := new Builder(flame);
    assert forall i :: 0 <= i < |b.builders| ==> b.builders[i] in b.Footprint();
    var o := b.SetAffineTransformation(index, t);
    r := b.AffineTransformation(index);
    g := b.Build();
  }

  /** A weight set at an index reads back there, and the rest of the flame is kept. */
  method SetWeightThenRead(flame: Flame, index: int, v: V.Variation, w: real) returns (r: Result<real>, g: Flame)
    requires WellFormed(flame)
    ensures 0 <= index < |flame.transformations| ==>
              && r == Ok(w)
              && g.transformations
                 == flame.transformations[index := flame.transformations[index].(weights := flame.transformations[index].weights[V.Index(v) := w])]
    ensures !(0 <= index < |flame.transformations|) ==> r == Err(IndexOutOfBounds) && g == flame
  {
    var b := new Builder(flame);
    assert forall i :: 0 <= i < |b.builders| ==> b.builders[i].weights in b.Footprint();
    var o := b.SetVariationWeight(index, v, w);
    r := b.VariationWeight(index, v);
    g := b.Build();
  }
}
