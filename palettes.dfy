/**
 * Palettes (color/Palette.java, color/InterpolatedPalette.java,
 * color/RandomPalette.java): maps from a colour index in [0, 1] to a colour.
 * The Palette interface becomes a sum of its two implementations.
 */
module Palettes {
  import opened Wrappers
  import opened RealMath
  import opened Colors

  /** A palette interpolating linearly between the colours of a list. */
  datatype InterpolatedPalette = InterpolatedPalette(colors: seq<Color>)

  /** What the constructor guarantees: at least two colours, all in gamut. */
  predicate WellFormed(pal: InterpolatedPalette) {
    |pal.colors| >= 2 && forall i :: 0 <= i < |pal.colors| ==> InGamut(pal.colors[i])
  }

  /** The constructor: fails with fewer than two colours and keeps its own copy of the list. */
  function NewInterpolatedPalette(colors: seq<Color>): (r: Result<InterpolatedPalette>)
    ensures r.Err? <==> |colors| < 2
    ensures r.Err? ==> r.error == IllegalArgument
    ensures r.Ok? ==> r.value.colors == colors
  {
    if |colors| < 2 then Err(IllegalArgument) else Ok(InterpolatedPalette(colors))
  }

  /** The position of a colour index in the list, index * (n - 1). */
  function ListIndex(pal: InterpolatedPalette, index: real): real {
    Times(index, (|pal.colors| - 1) as real)
  }

  lemma ListIndexBounds(pal: InterpolatedPalette, index: real)
    requires WellFormed(pal) && 0.0 <= index <= 1.0
    ensures 0.0 <= ListIndex(pal, index) <= (|pal.colors| - 1) as real
  {
    TimesProportion(index, (|pal.colors| - 1) as real);
  }

  /**
   * colorForIndex: fails outside [0, 1]; on a list position returns that
   * colour, between two positions mixes the upper colour with the lower one
   * in proportion to the fractional part.
   */
  function ColorForIndex(pal: InterpolatedPalette, index: real): (r: Result<Color>)
    requires WellFormed(pal)
    ensures r.Ok? <==> 0.0 <= index <= 1.0
    ensures r.Err? ==> r.error == IllegalArgument
    ensures r.Ok? ==> InGamut(r.value)
  {
    if index < 0.0 || index > 1.0 then Err(IllegalArgument)
    else
      ListIndexBounds(pal, index);
      var floorIndex := Trunc(ListIndex(pal, index));
      if floorIndex as real == ListIndex(pal, index) then Ok(pal.colors[floorIndex])
      else MixWith(pal.colors[floorIndex + 1], pal.colors[floorIndex], ListIndex(pal, index) - floorIndex as real)
  }

  /** On a list position k the palette returns exactly the k-th colour. */
  lemma ExactAtListPositions(pal: InterpolatedPalette, index: real, k: int)
    requires WellFormed(pal) && 0.0 <= index <= 1.0
    requires ListIndex(pal, index) == k as real
    ensures 0 <= k < |pal.colors|
    ensures ColorForIndex(pal, index) == Ok(pal.colors[k])
  {
    ListIndexBounds(pal, index);
  }

  /** Index 0 gives the first colour, index 1 the last. */
  lemma Endpoints(pal: InterpolatedPalette)
    requires WellFormed(pal)
    ensures ColorForIndex(pal, 0.0) == Ok(pal.colors[0])
    ensures ColorForIndex(pal, 1.0) == Ok(pal.colors[|pal.colors| - 1])
  {
    ExactAtListPositions(pal, 0.0, 0);
    ExactAtListPositions(pal, 1.0, |pal.colors| - 1);
  }

  /**
   * Between the positions k and k + 1 (k + 1 still a position) the result is
   * colour k + 1 mixed with colour k in the proportion of the fractional part.
   */
  lemma MixesNeighbours(pal: InterpolatedPalette, index: real)
    requires WellFormed(pal) && 0.0 <= index <= 1.0
    requires ListIndex(pal, index) != ListIndex(pal, index).Floor as real
    ensures 0 <= ListIndex(pal, index).Floor && ListIndex(pal, index).Floor + 1 < |pal.colors|
    ensures 0.0 < ListIndex(pal, index) - ListIndex(pal, index).Floor as real < 1.0
    ensures ColorForIndex(pal, index)
         == MixWith(pal.colors[ListIndex(pal, index).Floor + 1], pal.colors[ListIndex(pal, index).Floor],
                    ListIndex(pal, index) - ListIndex(pal, index).Floor as real)
  {
    ListIndexBounds(pal, index);
  }

  /** generateRGBPal: red, green and blue. */
  function GenerateRGBPal(): (pal: InterpolatedPalette)
    ensures WellFormed(pal)
    ensures ColorForIndex(pal, 0.0) == Ok(RED)
    ensures ColorForIndex(pal, 0.5) == Ok(GREEN)
    ensures ColorForIndex(pal, 1.0) == Ok(BLUE)
  {
    var pal := InterpolatedPalette([RED, GREEN, BLUE]);
    Endpoints(pal);
    ExactAtListPositions(pal, 0.5, 1);
    pal
  }

  /** clone(): a palette over the same colours, which agrees with the original everywhere. */
  function Clone(pal: InterpolatedPalette): (c: InterpolatedPalette)
    requires WellFormed(pal)
    ensures WellFormed(c)
    ensures forall index :: ColorForIndex(c, index) == ColorForIndex(pal, index)
  {
    InterpolatedPalette(pal.colors)
  }

  /** A palette of random colours, kept as an interpolated palette. */
  datatype RandomPalette = RandomPalette(palette: InterpolatedPalette)

  /** java.util.Random.nextDouble draws from [0, 1). */
  predicate UnitDraws(draws: seq<real>) {
    forall i :: 0 <= i < |draws| ==> 0.0 <= draws[i] < 1.0
  }

  /** The colour built from the draws 3i, 3i + 1 and 3i + 2. */
  function DrawnColor(draws: seq<real>, i: nat): Color
    requires 3 * i + 2 < |draws|
  {
    Color(draws[3 * i], draws[3 * i + 1], draws[3 * i + 2])
  }

  /**
   * RandomPalette(nbColors): fails with fewer than two colours; otherwise
   * builds nbColors colours, each from three consecutive draws, none of which
   * the Color constructor rejects.
   */
  method NewRandomPalette(nbColors: int, draws: seq<real>) returns (r: Result<RandomPalette>)
    requires UnitDraws(draws)
    requires nbColors >= 2 ==> |draws| >= 3 * nbColors
    ensures r.Err? <==> nbColors < 2
    ensures r.Err? ==> r.error == IllegalArgument
    ensures r.Ok? ==> WellFormed(r.value.palette) && |r.value.palette.colors| == nbColors
    ensures r.Ok? ==> forall i :: 0 <= i < nbColors ==> r.value.palette.colors[i] == DrawnColor(draws, i)
  {
    if nbColors < 2 {
      return Err(IllegalArgument);
    }
    var colorList: seq<Color> := [];
    for i := 0 to nbColors
      invariant |colorList| == i
      invariant forall k :: 0 <= k < i ==> colorList[k] == DrawnColor(draws, k) && InGamut(colorList[k])
    {
      var c := NewColor(draws[3 * i], draws[3 * i + 1], draws[3 * i + 2]);
      colorList := colorList + [c.value];
    }
    var pal := NewInterpolatedPalette(colorList);
    r := Ok(RandomPalette(pal.value));
  }

  /** colorForIndex delegates to the inner palette. */
  function RandomColorForIndex(pal: RandomPalette, index: real): (r: Result<Color>)
    requires WellFormed(pal.palette)
    ensures r == ColorForIndex(pal.palette, index)
  {
    ColorForIndex(pal.palette, index)
  }

  /** clone(): shares the inner palette, so the clone agrees with the original everywhere. */
  function RandomClone(pal: RandomPalette): (c: RandomPalette)
    requires WellFormed(pal.palette)
    ensures c.palette == pal.palette
    ensures forall index :: RandomColorForIndex(c, index) == RandomColorForIndex(pal, index)
  {
    RandomPalette(pal.palette)
  }

  /** The Palette interface: either implementation. */
  datatype Palette = Interpolated(interpolated: InterpolatedPalette) | Random(random: RandomPalette)

  predicate PaletteWellFormed(pal: Palette) {
    match pal
    case Interpolated(ip) => WellFormed(ip)
    case Random(rp) => WellFormed(rp.palette)
  }

  /** colorForIndex of whichever palette it is. */
  function PaletteColorForIndex(pal: Palette, index: real): (r: Result<Color>)
    requires PaletteWellFormed(pal)
    ensures r.Ok? <==> 0.0 <= index <= 1.0
    ensures r.Err? ==> r.error == IllegalArgument
    ensures r.Ok? ==> InGamut(r.value)
  {
    match pal
    case Interpolated(ip) => ColorForIndex(ip, index)
    case Random(rp) => RandomColorForIndex(rp, index)
  }
}
