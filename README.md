# Flame fractals in Dafny

This project models the rendering core of ch.epfl.flamemaker, a flame-fractal renderer, and proves properties of the model. The core covers:

- the plane geometry: points, viewport rectangles and affine maps;
- the fixed catalogue of six variations;
- the weighted flame transformations and their builder;
- the chaos game (`Flame.compute`) and the list builder of a flame;
- the pixel accumulator, with its builder, its coordinate mapping and its logarithmic intensity law;
- colours, sRGB encoding and the two palettes.

Java doubles are modelled as exact reals. `Math.sqrt`, `sin`, `cos`, `log` and `pow` are the fields of a `Transcendental` record passed to every member that needs them. The laws the proofs rely on are stated once, in `RealMath`:

- `sqrt` is the non-negative root.
- `log 1 = 0`, and `log` is increasing.
- `sin² + cos² = 1`.
- `pow` is monotone in its base and fixes 1.

A division by zero that makes the source's doubles NaN is `None` in the model. A NaN spreads through a weighted sum even when its weight is 0. Random draws (`Random.nextInt`, `Random.nextDouble`) are input sequences.

Value classes become datatypes with functions:

- `Point`
- `Rectangle`
- `AffineTransformation`
- `Variation`
- `FlameTransformation`
- `Flame`
- `Color`
- the palettes
- the frozen `FlameAccumulator`

Classes whose fields the source updates in place become Dafny classes:

- `FlameTransformation.Builder`, whose `weights` is an array.
- `FlameAccumulator.Builder`, whose two grids are `array2`s that `hit` changes in place.
- `Flame.Builder`, a sequence of transformation builders that the setters follow into.

The loops of the source are methods with loop invariants, proved against specification functions:

- `transformPoint`'s weighted sum;
- the accumulator's copy-and-maximum loop;
- the colour-index table;
- the chaos game;
- the random palette.

The model follows the code as written, with four corrections that the rest of the model uses; each is listed under "## Findings" next to a member that models the code as written:

- **Bottom-edge row.** `hit` computes the row as `(int)(height − y')`. The model keeps that row and replaces it by the last row, `height − 1`, only on the frame's bottom edge, where the source's row `height` lies outside the grid (`FlameAccumulators.RowsAgreeAboveBottomEdge`).
- **Colour-index table.** The model's table uses the exponent `ceil(log2 i)`, which the source's variable name `log2` and its change of base by `Math.log(2)` aim at. The misplaced parenthesis in `(int)(Math.ceil(Math.log(i))/(Math.log(2)))` changes entries 5 to 8, 17 to 20, 33 to 64 and more. The chaos game itself takes the table as a parameter, so the source's table (`Flames.TableAsWritten`) can drive it too.
- **Intensity without hits.** The code divides `log 1` by `log 1`. `color` returns the background for a zero intensity, so the corrected intensity is 0 there.
- **Bounds check of `color`.** `color` documents an IllegalArgument for a pixel outside the grid, but its check `x > width()`, `y > height()` lets `x == width()` and `y == height()` through, and `intensity` then fails with an array index error. The corrected `color` rejects every pixel outside `[0, width) × [0, height)` with IllegalArgument (`FlameAccumulators.ColorAtWidthAsWritten`).

Other behaviours of the code that its comments or its callers do not lead one to expect are modelled as the code has them:

- **Warm-up.** The comment of `compute` calls `m` the number of points to generate. The loop records the iterations with `i > 20`, so it records `m − 1` hits (`Flames.RecordedHits`).
- **Empty list.** On an empty transformation list, `compute` fails with an index-out-of-bounds error at `colorIndexTab[0]`. The unsupported-operation guard inside the loop is never reached (`Flames.Compute`).
- **Linear identity.** `PresetFlame.newEmptyFlame` and the list editor start from the identity with weight on Linear alone. That flame's first step evaluates Spherical at the origin, so the point is NaN from then on and no hit is recorded at all (`Flames.IdentityFlameIsUndefined`, `Flames.IdentityFlameRecordsNothing`).

## Model

| member | source | states |
|---|---|---|
| RealMath.Trunc | src/ch/epfl/flamemaker/color/InterpolatedPalette.java:42 | an (int) cast truncates toward zero: floor for non-negative arguments, ceiling for non-positive ones |
| RealMath.Ceil | src/ch/epfl/flamemaker/flame/Flame.java:49 | Math.ceil(x) is the least integer not below x |
| RealMath.Int32 | src/ch/epfl/flamemaker/flame/Flame.java:44 | 32-bit int arithmetic: the result is in [-2^31, 2^31), unchanged in range, congruent to the exact value modulo 2^32 |
| Points.SquaredNorm | src/ch/epfl/flamemaker/geometry2d/Point.java:56-58 | x² + y² is non-negative and vanishes only at the origin |
| Points.R | src/ch/epfl/flamemaker/geometry2d/Point.java:56-58 | r() is non-negative and r()² = x² + y² |
| Points.RadiusZeroIffOrigin | src/ch/epfl/flamemaker/geometry2d/Point.java:56-58 | r() = 0 exactly at ORIGIN |
| Rectangles.NewRectangle | src/ch/epfl/flamemaker/geometry2d/Rectangle.java:29-39 | construction fails with IllegalArgument iff width ≤ 0 or height ≤ 0, and otherwise keeps centre and sides |
| Rectangles.Left | src/ch/epfl/flamemaker/geometry2d/Rectangle.java:45-47 | left() is half the width left of the centre; EdgesOrdered states the order of the four edges |
| Rectangles.Right | src/ch/epfl/flamemaker/geometry2d/Rectangle.java:53-55 | right() is half the width right of the centre |
| Rectangles.Bottom | src/ch/epfl/flamemaker/geometry2d/Rectangle.java:61-63 | bottom() is half the height below the centre |
| Rectangles.Top | src/ch/epfl/flamemaker/geometry2d/Rectangle.java:69-71 | top() is half the height above the centre |
| Rectangles.Contains | src/ch/epfl/flamemaker/geometry2d/Rectangle.java:104-109 | contains(p) is the half-open test left ≤ x < right and bottom ≤ y < top; ContainsIsHalfOpen states its consequences |
| Rectangles.EdgesOrdered | src/ch/epfl/flamemaker/geometry2d/Rectangle.java:45-71 | left < centre.x < right with right − left = width, and likewise bottom < centre.y < top |
| Rectangles.ContainsIsHalfOpen | src/ch/epfl/flamemaker/geometry2d/Rectangle.java:104-109 | the bottom-left corner and the centre are contained; no point on the right or top edge is |
| Rectangles.AspectRatio | src/ch/epfl/flamemaker/geometry2d/Rectangle.java:115-117 | the ratio is positive and ratio·height = width |
| Rectangles.ExpandToAspectRatio | src/ch/epfl/flamemaker/geometry2d/Rectangle.java:127-138 | fails iff q ≤ 0; otherwise same centre, ratio q, neither side shorter, one side unchanged; the receiver itself when q is its ratio |
| Rectangles.AboveRatio | src/ch/epfl/flamemaker/geometry2d/Rectangle.java:130-131 | a larger ratio gives a wider rectangle than the receiver |
| Rectangles.BelowRatio | src/ch/epfl/flamemaker/geometry2d/Rectangle.java:133-134 | a smaller ratio gives a taller rectangle than the receiver |
| Rectangles.ExpandKeepsPoints | src/ch/epfl/flamemaker/geometry2d/Rectangle.java:127-138 | every point of the receiver lies in the expanded rectangle |
| Rectangles.ExpandIsSmallest | src/ch/epfl/flamemaker/geometry2d/Rectangle.java:127-138 | no rectangle with the same centre and ratio q covering the receiver has a shorter side than the expansion |
| AffineTransformations.TranslationX | src/ch/epfl/flamemaker/geometry2d/AffineTransformation.java:105-107 | translationX is the abscissa of the origin's image |
| AffineTransformations.TranslationY | src/ch/epfl/flamemaker/geometry2d/AffineTransformation.java:113-115 | translationY is the ordinate of the origin's image |
| AffineTransformations.TransformPoint | src/ch/epfl/flamemaker/geometry2d/AffineTransformation.java:97-99 | the image of (x, y) is (a·x + b·y + c, d·x + e·y + f) |
| AffineTransformations.NewTranslation | src/ch/epfl/flamemaker/geometry2d/AffineTransformation.java:48-50 | every point moves by (dx, dy), and the translation components are dx and dy |
| AffineTransformations.NewRotation | src/ch/epfl/flamemaker/geometry2d/AffineTransformation.java:57-59 | the origin is fixed and p goes to (cos θ·x − sin θ·y, sin θ·x + cos θ·y) |
| AffineTransformations.NewScaling | src/ch/epfl/flamemaker/geometry2d/AffineTransformation.java:67-69 | (x, y) goes to (sx·x, sy·y) |
| AffineTransformations.NewShearX | src/ch/epfl/flamemaker/geometry2d/AffineTransformation.java:76-78 | (x, y) goes to (x + s·y, y) |
| AffineTransformations.NewShearY | src/ch/epfl/flamemaker/geometry2d/AffineTransformation.java:85-87 | (x, y) goes to (x, s·x + y) |
| AffineTransformations.ShearYMaps | src/ch/epfl/flamemaker/geometry2d/AffineTransformation.java:85-87 | the matrix of newShearY maps every point to (x, s·x + y) |
| AffineTransformations.ComposeWith | src/ch/epfl/flamemaker/geometry2d/AffineTransformation.java:122-124 | t.composeWith(that) maps every p to t(that(p)): the argument is applied first |
| AffineTransformations.IdentityFixesPoints | src/ch/epfl/flamemaker/geometry2d/AffineTransformation.java:21 | IDENTITY maps every point to itself |
| AffineTransformations.IdentityIsUnit | src/ch/epfl/flamemaker/geometry2d/AffineTransformation.java:122-124 | IDENTITY is a unit of composeWith on both sides |
| AffineTransformations.Extensionality | src/ch/epfl/flamemaker/geometry2d/AffineTransformation.java:97-99 | two maps agreeing on (0,0), (1,0) and (0,1) are equal |
| AffineTransformations.ComposeAssociative | src/ch/epfl/flamemaker/geometry2d/AffineTransformation.java:122-124 | composeWith is associative |
| AffineTransformations.RotationPreservesNorm | src/ch/epfl/flamemaker/geometry2d/AffineTransformation.java:57-59 | a rotation keeps x² + y² |
| Variations.Index | src/ch/epfl/flamemaker/flame/Variation.java:41-43 | getIndex() is the variation's position in ALL_VARIATIONS |
| Variations.Name | src/ch/epfl/flamemaker/flame/Variation.java:34-36 | getName() of each variation; NamesInOrder states the catalogue's names in order |
| Variations.RadiusSquared | src/ch/epfl/flamemaker/flame/Variation.java:70-71 | Math.pow(r(), 2) is non-negative and equals x² + y² |
| Variations.TransformPoint | src/ch/epfl/flamemaker/flame/Variation.java:55-101 | every variation other than Spherical and Horseshoe is defined everywhere |
| Variations.CatalogIsIndexed | src/ch/epfl/flamemaker/flame/Variation.java:51-104 | six entries, and the entry at position i has index i |
| Variations.NamesInOrder | src/ch/epfl/flamemaker/flame/Variation.java:52-95 | the names in order are Linear, Sinusoidal, Spherical, Swirl, Horseshoe, Bubble |
| Variations.LinearIsIdentity | src/ch/epfl/flamemaker/flame/Variation.java:55-57 | Linear returns its argument |
| Variations.BubbleIsTotal | src/ch/epfl/flamemaker/flame/Variation.java:97-101 | the denominator r² + 4 is at least 4, and Bubble scales p by 4 / (r² + 4) |
| Variations.SphericalAwayFromOrigin | src/ch/epfl/flamemaker/flame/Variation.java:69-73 | Spherical is undefined exactly at the origin, and elsewhere scales p by 1 / r² |
| Variations.HorseshoeAwayFromOrigin | src/ch/epfl/flamemaker/flame/Variation.java:88-92 | Horseshoe is undefined exactly at the origin |
| Variations.DefinedUnlessDividingByZero | src/ch/epfl/flamemaker/flame/Variation.java:55-101 | a variation is undefined iff it is Spherical or Horseshoe and the point is the origin |
| FlameTransformations.NewFlameTransformation | src/ch/epfl/flamemaker/flame/FlameTransformation.java:30-35 | fails with IllegalArgument iff the weights are not one per variation |
| FlameTransformations.Apply | src/ch/epfl/flamemaker/flame/FlameTransformation.java:45-53 | the image of p: the weighted sum of the six variations at the affine image, undefined when a term is; TransformPoint's loop computes it and UndefinedIffAffineImageIsOrigin says where it is undefined |
| FlameTransformations.TransformPoint | src/ch/epfl/flamemaker/flame/FlameTransformation.java:45-53 | the loop accumulating wx and wy computes Apply: Σ weight[j]·V_j(g) over the catalogue in order, with g the affine image |
| FlameTransformations.WeightedSumUndefined | src/ch/epfl/flamemaker/flame/FlameTransformation.java:46-52 | a partial sum is undefined iff it has reached Spherical and the affine image is the origin |
| FlameTransformations.WeightedSumStep | src/ch/epfl/flamemaker/flame/FlameTransformation.java:47-51 | one more term is undefined iff the prior sum or the new variation is |
| FlameTransformations.UndefinedIffAffineImageIsOrigin | src/ch/epfl/flamemaker/flame/FlameTransformation.java:45-53 | a flame transformation is undefined exactly where its affine part gives the origin |
| FlameTransformations.LinearOnlySum | src/ch/epfl/flamemaker/flame/FlameTransformation.java:46-52 | with weights [1,0,0,0,0,0] every defined partial sum is the affine image |
| FlameTransformations.LinearOnlyIsAffine | src/ch/epfl/flamemaker/flame/FlameTransformation.java:45-53 | with weights [1,0,0,0,0,0] the transformation is its affine part away from the origin |
| FlameTransformations.Builder.constructor | src/ch/epfl/flamemaker/flame/FlameTransformation.java:70-73 | the builder starts from f, with a fresh copy of its weights |
| FlameTransformations.Builder.Build | src/ch/epfl/flamemaker/flame/FlameTransformation.java:81-83 | the built transformation is well formed and has the current affine part and weights |
| FlameTransformations.Builder.GetAffineTransformation | src/ch/epfl/flamemaker/flame/FlameTransformation.java:91-93 | returns the current affine component |
| FlameTransformations.Builder.SetAffineTransformation | src/ch/epfl/flamemaker/flame/FlameTransformation.java:101-105 | replaces the affine component and nothing else |
| FlameTransformations.Builder.GetVariationWeight | src/ch/epfl/flamemaker/flame/FlameTransformation.java:113-115 | returns weight i, or fails with IndexOutOfBounds outside the array |
| FlameTransformations.Builder.SetNewWeight | src/ch/epfl/flamemaker/flame/FlameTransformation.java:123-125 | overwrites weight i only, or fails and changes nothing |
| FlameTransformations.Rebuild | src/ch/epfl/flamemaker/flame/FlameTransformation.java:70-83 | Builder(f).build() gives f back |
| FlameTransformations.SetThenGet | src/ch/epfl/flamemaker/flame/FlameTransformation.java:70-125 | a weight set through a builder reads back, the other weights and the affine part are kept, and an index outside the array fails |
| Colors.NewColor | src/ch/epfl/flamemaker/color/Color.java:27-33 | fails with IllegalArgument iff a component lies outside [0, 1]; the accessors return the components |
| Colors.Blend | src/ch/epfl/flamemaker/color/Color.java:69-71 | p·a + (1 − p)·b lies between a and b, so in [0, 1] |
| Colors.BlendBounds | src/ch/epfl/flamemaker/color/Color.java:69-71 | a convex combination lies between its two ends |
| Colors.MixWith | src/ch/epfl/flamemaker/color/Color.java:66-73 | fails iff p ∉ [0, 1]; otherwise each component is p of this and 1 − p of that, and the inner constructor never fails |
| Colors.MixEndpoints | src/ch/epfl/flamemaker/color/Color.java:66-73 | mixWith(that, 1) is this colour and mixWith(that, 0) is that one |
| Colors.GammaEncode | src/ch/epfl/flamemaker/color/Color.java:92-95 | the sRGB transfer function of IEC 61966-2-1: 12.92·v up to 0.0031308, else 1.055·v^(1/2.4) − 0.055; GammaEncodeInUnit bounds it |
| Colors.SRGBEncode | src/ch/epfl/flamemaker/color/Color.java:90-98 | (int) of the encoded value times max; SRGBEncodeInRange bounds it |
| Colors.GammaEncodeInUnit | src/ch/epfl/flamemaker/color/Color.java:90-96 | the transfer function of IEC 61966-2-1 maps [0, 1] into [0, 1] |
| Colors.SRGBEncodeInRange | src/ch/epfl/flamemaker/color/Color.java:90-98 | sRGBEncode(v, max) lies in [0, max] for v in [0, 1] |
| Colors.GammaEncodeMonotoneOnBranches | src/ch/epfl/flamemaker/color/Color.java:92-95 | the transfer function is nondecreasing on [0, 0.0031308] and on (0.0031308, ∞) separately |
| Colors.SRGBEncodeMonotoneOnBranches | src/ch/epfl/flamemaker/color/Color.java:90-98 | two components in [0, 1] on the same side of the threshold encode in the same order, for every max ≥ 0 |
| Colors.Channels | src/ch/epfl/flamemaker/color/Color.java:80-82 | each encoded channel of a colour lies in [0, 255] |
| Colors.AsPackedRGB | src/ch/epfl/flamemaker/color/Color.java:80-82 | the packed value fits in 24 bits and each channel unpacks back from it |
| Colors.Unpack | src/ch/epfl/flamemaker/color/Color.java:81 | r·2¹⁶ + g·2⁸ + b unpacks to r, g and b for bytes r, g, b |
| Palettes.NewInterpolatedPalette | src/ch/epfl/flamemaker/color/InterpolatedPalette.java:23-27 | fails with fewer than two colours and otherwise keeps the list |
| Palettes.ListIndexBounds | src/ch/epfl/flamemaker/color/InterpolatedPalette.java:41 | index·(n − 1) lies in [0, n − 1] |
| Palettes.ColorForIndex | src/ch/epfl/flamemaker/color/InterpolatedPalette.java:38-50 | fails iff index ∉ [0, 1], and otherwise gives a colour in gamut |
| Palettes.ExactAtListPositions | src/ch/epfl/flamemaker/color/InterpolatedPalette.java:41-44 | when index·(n − 1) is an integer k, the colour is exactly colour k |
| Palettes.Endpoints | src/ch/epfl/flamemaker/color/InterpolatedPalette.java:38-50 | index 0 gives the first colour and index 1 the last |
| Palettes.MixesNeighbours | src/ch/epfl/flamemaker/color/InterpolatedPalette.java:45-48 | between positions, colour k + 1 is mixed with colour k in the proportion of the fractional part, with k + 1 ≤ n − 1 |
| Palettes.GenerateRGBPal | src/ch/epfl/flamemaker/color/InterpolatedPalette.java:52-58 | red at 0, green at 1/2, blue at 1 |
| Palettes.Clone | src/ch/epfl/flamemaker/color/InterpolatedPalette.java:60-64 | the clone agrees with the original on every index |
| Palettes.NewRandomPalette | src/ch/epfl/flamemaker/color/RandomPalette.java:18-27 | fails iff fewer than two colours; otherwise exactly nbColors colours, the i-th from draws 3i, 3i + 1 and 3i + 2, none rejected |
| Palettes.RandomColorForIndex | src/ch/epfl/flamemaker/color/RandomPalette.java:40-42 | delegates unchanged to the inner palette |
| Palettes.RandomClone | src/ch/epfl/flamemaker/color/RandomPalette.java:44-46 | the clone shares the inner palette and agrees everywhere |
| Palettes.PaletteColorForIndex | src/ch/epfl/flamemaker/color/Palette.java:5-12 | either palette fails iff index ∉ [0, 1] and otherwise gives a colour in gamut |
| FlameAccumulators.Constant | src/ch/epfl/flamemaker/flame/FlameAccumulator.java:132-144 | a height × width grid with every cell equal to the given value |
| FlameAccumulators.PixelTransformIsPixelPosition | src/ch/epfl/flamemaker/flame/FlameAccumulator.java:128 | the composed transform t is the translation by −(left, bottom) followed by the scaling to pixels |
| FlameAccumulators.PixelCoordinates | src/ch/epfl/flamemaker/flame/FlameAccumulator.java:128 | the pixel position of p is ((x − left)·w/fw, (y − bottom)·h/fh) |
| FlameAccumulators.InsidePixelSpace | src/ch/epfl/flamemaker/flame/FlameAccumulator.java:162-165 | a contained point lands in [0, width) × [0, height) |
| FlameAccumulators.Cell | src/ch/epfl/flamemaker/flame/FlameAccumulator.java:162-165 | a cell exists iff the point is a number and the frame contains it, and the cell lies in the grid |
| FlameAccumulators.Column | src/ch/epfl/flamemaker/flame/FlameAccumulator.java:165 | the column (int) x' is the integer part of a non-negative abscissa |
| FlameAccumulators.RowAsWritten | src/ch/epfl/flamemaker/flame/FlameAccumulator.java:164 | the source's row (int)(height − y'): in [0, height] for y' in [0, height), below height for y' > 0, and height at y' = 0 |
| FlameAccumulators.Row | src/ch/epfl/flamemaker/flame/FlameAccumulator.java:164 | the corrected row is the source's row or the last row, and lies in [0, height) for y' in [0, height) |
| FlameAccumulators.RowOrientation | src/ch/epfl/flamemaker/flame/FlameAccumulator.java:150 | the grid is filled from the bottom: a higher ordinate never gets a lower row |
| FlameAccumulators.CellOrientation | src/ch/epfl/flamemaker/flame/FlameAccumulator.java:150-165 | of two points of the frame, the higher one has a row no greater and the one further right a column no smaller |
| FlameAccumulators.BottomEdgeRowAsWritten | src/ch/epfl/flamemaker/flame/FlameAccumulator.java:164 | as written, a point on the bottom edge maps to row height, outside the grid; the corrected row there is height − 1 |
| FlameAccumulators.RowsAgreeAboveBottomEdge | src/ch/epfl/flamemaker/flame/FlameAccumulator.java:164 | the corrected row equals the source's (int)(height − y') exactly when y' ≠ 0, and always lies in [0, height) |
| FlameAccumulators.GridsEqual | src/ch/epfl/flamemaker/flame/FlameAccumulator.java:22-39 | two grids of one shape with equal cells are equal |
| FlameAccumulators.AddHit | src/ch/epfl/flamemaker/flame/FlameAccumulator.java:161-169 | exactly the hit cell gains 1 and every other cell keeps its count |
| FlameAccumulators.AddColor | src/ch/epfl/flamemaker/flame/FlameAccumulator.java:161-169 | exactly the hit cell gains c and every other cell keeps its sum |
| FlameAccumulators.RowTotalIncrement | src/ch/epfl/flamemaker/flame/FlameAccumulator.java:166 | adding one to a cell of a row adds one to the row's total |
| FlameAccumulators.TotalIncrement | src/ch/epfl/flamemaker/flame/FlameAccumulator.java:166 | adding one to a cell adds one to the grid's total |
| FlameAccumulators.HitCountsOnce | src/ch/epfl/flamemaker/flame/FlameAccumulator.java:161-169 | a hit raises the total count by 1 iff the frame contains the point, and otherwise not at all |
| FlameAccumulators.MaxInRowBounds | src/ch/epfl/flamemaker/flame/FlameAccumulator.java:27-30 | the inner loop's running maximum bounds the row's cells and is the start value or one of them |
| FlameAccumulators.MaxInRowsBounds | src/ch/epfl/flamemaker/flame/FlameAccumulator.java:26-31 | the outer loop's running maximum is non-negative, bounds every cell seen and is 0 or one of them |
| FlameAccumulators.MaxCount | src/ch/epfl/flamemaker/flame/FlameAccumulator.java:22-31 | the running maximum of the constructor's loops over the whole grid; MaxCountIsMaximum states that it is the largest count |
| FlameAccumulators.MaxCountIsMaximum | src/ch/epfl/flamemaker/flame/FlameAccumulator.java:22-32 | maxPoints is the maximum count, or 0 when there are no hits |
| FlameAccumulators.Width | src/ch/epfl/flamemaker/flame/FlameAccumulator.java:68-70 | width() is the common length of the rows, at least 1 |
| FlameAccumulators.Height | src/ch/epfl/flamemaker/flame/FlameAccumulator.java:76-78 | height() is the number of rows, at least 1 |
| FlameAccumulators.PassesCheckAsWritten | src/ch/epfl/flamemaker/flame/FlameAccumulator.java:56 | the coordinate check of color, intensity and hitCount (also at lines 88 and 102) lets every cell of the grid through |
| FlameAccumulators.CheckTooLenient | src/ch/epfl/flamemaker/flame/FlameAccumulator.java:56 | as written the check lets x = width() through, one column beyond the grid |
| FlameAccumulators.HitCount | src/ch/epfl/flamemaker/flame/FlameAccumulator.java:101-105 | Ok iff (x, y) is a cell, else IndexOutOfBounds; the value is the cell's count flameAcc[y][x], in [0, maxPoints] |
| FlameAccumulators.RatioInUnit | src/ch/epfl/flamemaker/flame/FlameAccumulator.java:92 | a / b lies in [0, 1], is 0 iff a is, and is 1 iff a = b |
| FlameAccumulators.IntensityAsWritten | src/ch/epfl/flamemaker/flame/FlameAccumulator.java:87-93 | Ok iff the cell exists under the strict check, else IndexOutOfBounds |
| FlameAccumulators.IntensityUndefinedWithoutHits | src/ch/epfl/flamemaker/flame/FlameAccumulator.java:90-92 | as written, with no hit at all the intensity is 0/0, not a number |
| FlameAccumulators.Intensity | src/ch/epfl/flamemaker/flame/FlameAccumulator.java:87-93 | Ok iff (x, y) is a cell, else IndexOutOfBounds; with a hit somewhere it is the source's log(count + 1) / log(maxPoints + 1) |
| FlameAccumulators.IntensityBounds | src/ch/epfl/flamemaker/flame/FlameAccumulator.java:87-93 | intensity lies in [0, 1], is 0 iff the count is 0, and is 1 iff the count is maxPoints > 0 |
| FlameAccumulators.IntensityMonotone | src/ch/epfl/flamemaker/flame/FlameAccumulator.java:87-93 | a cell with no more hits than another is no brighter, and two cells are equally bright iff their counts are equal |
| FlameAccumulators.LogOrder | src/ch/epfl/flamemaker/flame/FlameAccumulator.java:90-91 | log is monotone and injective on the positive reals |
| FlameAccumulators.Color | src/ch/epfl/flamemaker/flame/FlameAccumulator.java:55-62 | an invalid cell gives IllegalArgument; no hit gives background; otherwise fails with IllegalArgument iff the mean index sum/count is outside [0, 1], and else is the palette colour of the mean mixed with background in proportion to the intensity |
| FlameAccumulators.ColorAsWritten | src/ch/epfl/flamemaker/flame/FlameAccumulator.java:55-62 | with hits somewhere and a valid cell the source's colour agrees with the corrected one |
| FlameAccumulators.ColorAtWidthAsWritten | src/ch/epfl/flamemaker/flame/FlameAccumulator.java:56-61 | as written x = width() fails with an array index error instead of IllegalArgument |
| FlameAccumulators.ColorWithoutHitsAsWritten | src/ch/epfl/flamemaker/flame/FlameAccumulator.java:90-92 | as written a grid without hits colours no pixel at all; corrected, it gives background |
| FlameAccumulators.Builder.constructor | src/ch/epfl/flamemaker/flame/FlameAccumulator.java:126-145 | a builder for frame, width and height with both grids all zero |
| FlameAccumulators.Builder.Create | src/ch/epfl/flamemaker/flame/FlameAccumulator.java:126-145 | fails with IllegalArgument iff width ≤ 0 or height ≤ 0; otherwise fresh height × width grids, all zero |
| FlameAccumulators.Builder.Hit | src/ch/epfl/flamemaker/flame/FlameAccumulator.java:161-169 | the counts become AddHit and the sums AddColor of the point's cell, with both grids unchanged outside the frame |
| FlameAccumulators.Builder.PixelCell | src/ch/epfl/flamemaker/flame/FlameAccumulator.java:164-165 | the row (int)(height − y') kept below height and the column (int) x' are the point's Row and Column |
| FlameAccumulators.Builder.AddAt | src/ch/epfl/flamemaker/flame/FlameAccumulator.java:166-167 | the count of cell (y, x) gains 1 and its sum gains c, every other cell unchanged |
| FlameAccumulators.Builder.Build | src/ch/epfl/flamemaker/flame/FlameAccumulator.java:22-39 | the accumulator holds copies of both grids and their maximum count |
| FlameAccumulators.HitThenCount | src/ch/epfl/flamemaker/flame/FlameAccumulator.java:161-169 | one hit raises the built accumulator's total count by 1 iff the frame contains the point |
| Flames.CeilLog2Bounds | src/ch/epfl/flamemaker/flame/Flame.java:49 | CeilLog2(i) is the least L with 2^L ≥ i |
| Flames.BaseColorIndex | src/ch/epfl/flamemaker/flame/Flame.java:46-55 | entry i of the corrected table: 0, 1, then (i − 2^L/2) / 2^L with L = ceil(log2 i); BaseColorIndexInUnit bounds it |
| Flames.BaseColorIndexInUnit | src/ch/epfl/flamemaker/flame/Flame.java:46-55 | every corrected table entry lies in [0, 1], and those after the second in (0, 1/2] |
| Flames.HalvedOffset | src/ch/epfl/flamemaker/flame/Flame.java:50 | (i − P/2) / P lies in (0, 1/2] for P/2 < i ≤ P |
| Flames.FirstBaseColorIndices | src/ch/epfl/flamemaker/flame/Flame.java:46-55 | the first entries are 0, 1, 1/2, 1/4, 1/2, 1/8 |
| Flames.ColorIndexAsWritten | src/ch/epfl/flamemaker/flame/Flame.java:46-55 | entry i of the source's table, with the exponent (int)(ceil(ln i) / ln 2) |
| Flames.ColorIndexSevenAsWritten | src/ch/epfl/flamemaker/flame/Flame.java:49-50 | as written entry 7 is 5/4, above 1, where the intended entry is 3/8 |
| Flames.ColorIndexLeavesUnitInGameAsWritten | src/ch/epfl/flamemaker/flame/Flame.java:46-62 | driven by the source's table, three picks of transformation 7 take the colour index above 1 |
| Flames.ColorIndexInUnit | src/ch/epfl/flamemaker/flame/Flame.java:62 | with a table whose entries lie in [0, 1], the running colour index c stays in [0, 1] |
| Flames.CorrectedTable | src/ch/epfl/flamemaker/flame/Flame.java:41-55 | the model's table has one entry per transformation, each the corrected base colour index, all in [0, 1] |
| Flames.TableAsWritten | src/ch/epfl/flamemaker/flame/Flame.java:41-55 | the source's table has one entry per transformation, entry k being ColorIndexAsWritten(k) |
| Flames.Step | src/ch/epfl/flamemaker/flame/Flame.java:60-63 | one iteration: c becomes the mean of the picked table entry and c, and p the picked transformation's image, NaN staying NaN; StateAfter iterates it |
| Flames.StaysUndefined | src/ch/epfl/flamemaker/flame/Flame.java:63 | once the point is NaN, every later step keeps it NaN |
| Flames.StateAfter | src/ch/epfl/flamemaker/flame/Flame.java:42-63 | the point and colour index after the first n iterations, from the origin with c = 0, one Step per draw; ColorIndexInUnit, StaysUndefined and FirstStep state what it keeps |
| Flames.CountsAfter | src/ch/epfl/flamemaker/flame/Flame.java:57-66 | the counts after n iterations are a height × width grid |
| Flames.SumsAfter | src/ch/epfl/flamemaker/flame/Flame.java:57-66 | the colour sums after n iterations are a height × width grid |
| Flames.Iterations | src/ch/epfl/flamemaker/flame/Flame.java:44-57 | the loop bound m + 20 is a 32-bit int, and equals density·width·height + 20 (or 0 when that is not positive) whenever no product overflows |
| Flames.RecordedCount | src/ch/epfl/flamemaker/flame/Flame.java:64-65 | of the first n iterations at most n are recorded |
| Flames.InFrameCount | src/ch/epfl/flamemaker/flame/Flame.java:64-65 | the recorded in-frame points of the first n iterations are at most the recorded iterations |
| Flames.RecordedCountIs | src/ch/epfl/flamemaker/flame/Flame.java:57-64 | of the first n iterations, n − 21 are recorded (none when n ≤ 21) |
| Flames.RecordedHits | src/ch/epfl/flamemaker/flame/Flame.java:44-66 | without overflow the loop runs m + 20 times and records m − 1 hits (0 when m = 0) |
| Flames.TotalCountsAfter | src/ch/epfl/flamemaker/flame/Flame.java:57-66 | the grid's total count is the number of recorded in-frame points, at most the number of recorded iterations |
| Flames.IdentityFlameIsUndefined | src/ch/epfl/flamemaker/flame/Flame.java:42-63 | the identity flame with weight on Linear alone is NaN from its first step on |
| Flames.IdentityUndefinedAtOrigin | src/ch/epfl/flamemaker/flame/FlameTransformation.java:45-53 | that transformation is undefined at the origin |
| Flames.FirstStep | src/ch/epfl/flamemaker/flame/Flame.java:42-63 | the first step applies the drawn transformation to the origin |
| Flames.IdentityFlameRecordsNothing | src/ch/epfl/flamemaker/flame/Flame.java:57-66 | that flame records no hit at all, whatever the frame and the draws |
| Flames.NoneInFrame | src/ch/epfl/flamemaker/flame/Flame.java:64-65 | none of its recorded points is in the frame |
| Flames.FillColorIndexTable | src/ch/epfl/flamemaker/flame/Flame.java:46-55 | the filled table holds the corrected base colour indices |
| Flames.FillColorIndexTableAsWritten | src/ch/epfl/flamemaker/flame/Flame.java:46-55 | the same loop with the source's exponent fills TableAsWritten |
| Flames.Iterate | src/ch/epfl/flamemaker/flame/Flame.java:59-65 | for any table held in the array, one iteration takes the point, the colour index and both grids from their values after i iterations (StateAfter, CountsAfter, SumsAfter) to their values after i + 1 |
| Flames.RunChaosGame | src/ch/epfl/flamemaker/flame/Flame.java:57-66 | for any table held in the array, after the loop the point, the colour index and both grids are those of StateAfter, CountsAfter and SumsAfter over that table |
| Flames.Render | src/ch/epfl/flamemaker/flame/Flame.java:41-69 | from an empty builder, the accumulator built is that of the counts and sums after n iterations over the corrected table, with their maximum |
| Flames.Compute | src/ch/epfl/flamemaker/flame/Flame.java:39-69 | fails with IllegalArgument for a size ≤ 0, and with IndexOutOfBounds for an empty list; otherwise the accumulator of the recorded iterations over the corrected table and its maximum |
| Flames.CheckIndex | src/ch/epfl/flamemaker/flame/Flame.java:200-203 | as written checkIndex passes 0 ≤ index ≤ size, the size included |
| Flames.ListIndexCheck | src/ch/epfl/flamemaker/flame/Flame.java:191-194 | the list's get and remove accept exactly 0 ≤ index < size |
| Flames.CheckIndexAdmitsSize | src/ch/epfl/flamemaker/flame/Flame.java:137-203 | checkIndex lets the size through and the list then fails; together they accept exactly 0 ≤ index < size |
| Flames.Builder.Transformations | src/ch/epfl/flamemaker/flame/Flame.java:77 | one well-formed transformation per builder |
| Flames.Builder.constructor | src/ch/epfl/flamemaker/flame/Flame.java:87-92 | one fresh builder per transformation of the flame, in order |
| Flames.Builder.TransformationList | src/ch/epfl/flamemaker/flame/Flame.java:205-211 | the list copy is the current transformations in order |
| Flames.Builder.Build | src/ch/epfl/flamemaker/flame/Flame.java:103-109 | the built flame is well formed and consists of the current transformations |
| Flames.Builder.TransformationCount | src/ch/epfl/flamemaker/flame/Flame.java:117-119 | the number of transformations |
| Flames.Builder.AddTransformation | src/ch/epfl/flamemaker/flame/Flame.java:125-127 | the transformation is appended at the end |
| Flames.Builder.RemoveTransformation | src/ch/epfl/flamemaker/flame/Flame.java:191-194 | removes exactly element index, keeping the others in order; fails iff index ∉ [0, size) |
| Flames.Builder.AffineTransformation | src/ch/epfl/flamemaker/flame/Flame.java:137-140 | the affine component at the index, or IndexOutOfBounds iff index ∉ [0, size) |
| Flames.Builder.SetAffineTransformation | src/ch/epfl/flamemaker/flame/Flame.java:150-153 | changes only the affine component of transformation index, or fails and changes nothing |
| Flames.Builder.VariationWeight | src/ch/epfl/flamemaker/flame/Flame.java:165-168 | the weight of the variation in transformation index, or IndexOutOfBounds iff index ∉ [0, size) |
| Flames.Builder.SetVariationWeight | src/ch/epfl/flamemaker/flame/Flame.java:180-183 | changes only that weight of transformation index, or fails and changes nothing |
| Flames.Rebuild | src/ch/epfl/flamemaker/flame/Flame.java:87-109 | Builder(flame).build() gives the flame back |
| Flames.AddThenRemove | src/ch/epfl/flamemaker/flame/Flame.java:191-194 | adding a transformation and removing the last one gives the flame back |
| Flames.SetAffineThenRead | src/ch/epfl/flamemaker/flame/Flame.java:137-153 | an affine component set at an index reads back and the rest of the flame is kept; an invalid index fails and changes nothing |
| Flames.SetWeightThenRead | src/ch/epfl/flamemaker/flame/Flame.java:165-183 | a weight set at an index reads back and the rest of the flame is kept; an invalid index fails and changes nothing |

## Left out

- Transcendental functions: `Math.sqrt`, `sin`, `cos`, `log` and `pow` are uninterpreted parameters. Only the laws in `RealMath.Lawful` are assumed of them, as preconditions.
- IEEE doubles: rounding, overflow to infinity and NaN propagation are not modelled. A NaN point becomes `None`. A NaN colour index never arises in the corrected model.
- `Point.theta` (`Math.atan2`) and `toString` methods: nothing in the core uses them.
- Null checks: the model has no null, so the IllegalArgument of `FlameTransformation.Builder.setAffineTransformation` for a null argument cannot arise.
- Randomness: `new Random(2013).nextInt` in `compute` and `Random.nextDouble` in `RandomPalette` are input sequences of draws.
- 32-bit `int` hit counts: `flameAcc[y][x]++` is unbounded here. Only the loop bound is computed with `Int32`: `m = density·width·height` and `m + 20` both wrap (`Flames.Iterations`).
- The `Transformation` and `Palette` interfaces: the variations and flame transformations are separate datatypes, and `Palette` is a sum of its two implementations.
- FlameTransformations.Builder.Build: the source hands its own weight array to the built transformation, so a later `setNewWeight` shows through. The model copies the weights (`weights[..]`), so that aliasing is not captured.
- Flames.Builder.Build: it calls `TransformationList` instead of repeating the same loop.
- Flames.Compute: it renders with the corrected colour-index table (see Findings). That table differs from the source's at entries 5 to 8, 17 to 20, 33 to 64 and further ones. The source's table is `Flames.TableAsWritten`, and `Flames.RunChaosGame` accepts it as well.
- Flames.Render: it fills and uses the corrected table, as `Flames.Compute` does.
- Flames.FillColorIndexTable: it fills the corrected table. `Flames.FillColorIndexTableAsWritten` is the loop as the source writes it.
- FlameAccumulators.Intensity: it reads the intensity of an accumulator without hits (maxPoints = 0) as 0, where the source computes `log 1 / log 1`, which is not a number. Everywhere else, including the array index error at x = width or y = height, it agrees with the source (`FlameAccumulators.IntensityAsWritten`).
- FlameAccumulators.Color: it differs from the source in two places. At x = width or y = height it fails with IllegalArgument, where the source fails with an array index error inside `intensity`. With maxPoints = 0 it returns the background, where the source returns a colour that is not a number (`FlameAccumulators.ColorAsWritten`).
- FlameAccumulators.Builder.Hit: it records a hit in the corrected row. That row differs from the source's only on the frame's bottom edge, where the source's row `height` is outside the grid.
- The zeroing loops in `FlameAccumulator.Builder`'s constructor: they are subsumed by allocating zeroed arrays.
- The `UnsupportedOperationException` guard in `compute`: it is unreachable, because an empty list already fails at `colorIndexTab[0]`.
- The frame copy in `FlameAccumulator.Builder`'s constructor: rectangles are values here.
- The `Flame` constructor's list copy: a flame is a value here, so later changes to the caller's list cannot reach it.
- Colors.GammaEncodeInUnit: it relies on `PowLaw`, which assumes `pow(0.0031308, 1/2.4) ≥ 0.0522`.
- Colors.SRGBEncode: no lemma states that it is nondecreasing over [0, 1], because with the constants of Color.java:92-95 it is not. At 0.0031308 the linear branch gives 0.040449936, and just above it the power branch gives about 0.0404499075, a step down of about 2.9·10⁻⁸. Truncation hides that step for a small `max` such as 255, but not for a large one such as 10⁸. Only monotonicity within each branch is proved (`Colors.GammaEncodeMonotoneOnBranches`, `Colors.SRGBEncodeMonotoneOnBranches`).
- Swing GUI, the observable builder, preset flames, PPM export, serialisation, `Segment` and the class-loading harness: they are outside the rendering core.

## Findings

| source | as written | input that shows it | evidently intended | confidence | as-written member | corrected member |
|---|---|---|---|---|---|---|
| src/ch/epfl/flamemaker/flame/FlameAccumulator.java:164 | row `(int)(height − y')` | a point with `p.y == frame.bottom()` gives `y' = 0` and row `height`, outside the grid | the same row, kept at `height − 1` on the bottom edge; every other point keeps the source's row | not executed | FlameAccumulators.BottomEdgeRowAsWritten | FlameAccumulators.Cell |
| src/ch/epfl/flamemaker/flame/FlameAccumulator.java:56,88,102 | bounds checks `x > width()`, `y > height()` | `x == width()` passes the check and then fails at the array access | `x >= width()` and `y >= height()` rejected by the check | not executed | FlameAccumulators.ColorAtWidthAsWritten | FlameAccumulators.Color |
| src/ch/epfl/flamemaker/flame/FlameAccumulator.java:90-92 | `log(count + 1) / log(maxPoints + 1)` | an accumulator with no hit: `log 1 / log 1 = 0/0`, so `color` mixes with a NaN proportion | intensity 0 without hits, so `color` returns the background | not executed | FlameAccumulators.ColorWithoutHitsAsWritten | FlameAccumulators.Intensity |
| src/ch/epfl/flamemaker/flame/Flame.java:49 | exponent `(int)(ceil(ln i) / ln 2)` | `i = 7`: `ceil(ln 7) = 2` and `2 / ln 2 = 2.88…`, so the exponent is 2 and the entry is 5/4, above 1; three picks of 7 take `c` to 1.09375 | exponent `ceil(log2 i) = 3`, entry 3/8; the entries also differ at 5, 6, 8, 17 to 20 and 33 to 64 | not executed | Flames.ColorIndexLeavesUnitInGameAsWritten | Flames.CorrectedTable |
