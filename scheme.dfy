/** The rule table of `updateScheme`: from a base colour in HSL, hue
    rotations (complementary, analogous, triadic, tetradic) or lightness
    steps (monochromatic). */
module Scheme {

  /** An HSL colour with integer hue (degrees), saturation and lightness
      (percent), as `rgbToHsl` returns it after rounding. */
  datatype Hsl = Hsl(h: int, s: int, l: int)

  /** The options of the scheme-type selector. */
  datatype SchemeType = Complementary | Analogous | Triadic | Tetradic | Monochromatic

  /** JavaScript's `a % 360`: the remainder of division truncated toward
      zero, which has the sign of a. */
  function Remainder360(a: int): (rem: int)
    ensures a >= 0 ==> 0 <= rem < 360
    ensures a < 0 ==> -360 < rem <= 0
    ensures (a - rem) % 360 == 0
  {
    if a >= 0 then a % 360 else -((-a) % 360)
  }

  function Max(a: int, b: int): int { if a >= b then a else b }

  function Min(a: int, b: int): int { if a <= b then a else b }

  /** `{ h: expr % 360, s: hsl.s, l: hsl.l }`. */
  function WithHue(base: Hsl, dividend: int): Hsl {
    Hsl(Remainder360(dividend), base.s, base.l)
  }

  function WithLightness(base: Hsl, l: int): Hsl {
    Hsl(base.h, base.s, l)
  }

  /** The `switch (schemeType.value)` of `updateScheme`. The base colour
      itself appears unreduced. */
  function GenerateScheme(base: Hsl, t: SchemeType): (colors: seq<Hsl>)
    ensures 2 <= |colors| <= 5
    ensures base in colors
  {
    match t
    case Complementary =>
      [base, WithHue(base, base.h + 180)]
    case Analogous =>
      [WithHue(base, base.h - 30 + 360), base, WithHue(base, base.h + 30)]
    case Triadic =>
      [base, WithHue(base, base.h + 120), WithHue(base, base.h + 240)]
    case Tetradic =>
      [base, WithHue(base, base.h + 90), WithHue(base, base.h + 180), WithHue(base, base.h + 270)]
    case Monochromatic =>
      [ WithLightness(base, Max(20, base.l - 30)),
        WithLightness(base, Max(10, base.l - 15)),
        base,
        WithLightness(base, Min(90, base.l + 15)),
        WithLightness(base, Min(95, base.l + 30)) ]
  }

  // ----- The colour-theory table the rules implement -----

  /** The hue offsets, in degrees, of each hue-rotation scheme. */
  function HueOffsets(t: SchemeType): seq<int>
    requires t != Monochromatic
  {
    match t
    case Complementary => [0, 180]
    case Analogous => [-30, 0, 30]
    case Triadic => [0, 120, 240]
    case Tetradic => [0, 90, 180, 270]
  }

  /** One rotated entry: the dividend is the base hue plus the offset, or
      that plus 360 (the source's `h - 30 + 360`). */
  lemma TurnedHue(base: Hsl, dividend: int, offset: int)
    requires dividend == base.h + offset || dividend == base.h + offset + 360
    ensures var c := WithHue(base, dividend);
      && c.s == base.s && c.l == base.l
      && (c.h - (base.h + offset)) % 360 == 0
      && (dividend >= 0 ==> 0 <= c.h < 360)
  {
    var c := WithHue(base, dividend);
    if dividend == base.h + offset + 360 {
      assert c.h - (base.h + offset) == (c.h - dividend) + 360;
    }
  }

  /** A scheme entry for one offset of the table: the base itself for
      offset 0, and otherwise the base hue turned by the offset, reduced to
      [0, 360) when the base hue is not negative; saturation and lightness
      are those of the base. */
  predicate RotatedBy(c: Hsl, base: Hsl, offset: int) {
    && c.s == base.s && c.l == base.l
    && (c.h - (base.h + offset)) % 360 == 0
    && (offset == 0 ==> c == base)
    && (offset != 0 && base.h >= 0 ==> 0 <= c.h < 360)
  }

  lemma ComplementaryHues(base: Hsl)
    ensures var colors := GenerateScheme(base, Complementary);
      |colors| == 2 && RotatedBy(colors[0], base, 0) && RotatedBy(colors[1], base, 180)
  {
    TurnedHue(base, base.h + 180, 180);
  }

  lemma AnalogousHues(base: Hsl)
    ensures var colors := GenerateScheme(base, Analogous);
      && |colors| == 3 && RotatedBy(colors[0], base, -30)
      && RotatedBy(colors[1], base, 0) && RotatedBy(colors[2], base, 30)
  {
    TurnedHue(base, base.h - 30 + 360, -30);
    TurnedHue(base, base.h + 30, 30);
  }

  lemma TriadicHues(base: Hsl)
    ensures var colors := GenerateScheme(base, Triadic);
      && |colors| == 3 && RotatedBy(colors[0], base, 0)
      && RotatedBy(colors[1], base, 120) && RotatedBy(colors[2], base, 240)
  {
    TurnedHue(base, base.h + 120, 120);
    TurnedHue(base, base.h + 240, 240);
  }

  lemma TetradicHues(base: Hsl)
    ensures var colors := GenerateScheme(base, Tetradic);
      && |colors| == 4 && RotatedBy(colors[0], base, 0)
      && RotatedBy(colors[1], base, 90) && RotatedBy(colors[2], base, 180)
      && RotatedBy(colors[3], base, 270)
  {
    TurnedHue(base, base.h + 90, 90);
    TurnedHue(base, base.h + 180, 180);
    TurnedHue(base, base.h + 270, 270);
  }

  /** Each hue-rotation scheme holds one colour per offset of the table. */
  lemma HueRotation(base: Hsl, t: SchemeType)
    requires t != Monochromatic
    ensures var colors := GenerateScheme(base, t);
      && |colors| == |HueOffsets(t)|
      && forall i :: 0 <= i < |colors| ==> RotatedBy(colors[i], base, HueOffsets(t)[i])
  {
    match t
    case Complementary => ComplementaryHues(base);
    case Analogous => AnalogousHues(base);
    case Triadic => TriadicHues(base);
    case Tetradic => TetradicHues(base);
  }

  /** For a base hue in [0, 360] (`rgbToHsl` rounds hues just below 360 up
      to 360) the hues of a rotation scheme are pairwise different. */
  lemma DistinctHues(base: Hsl, t: SchemeType)
    requires t != Monochromatic && 0 <= base.h <= 360
    ensures var colors := GenerateScheme(base, t);
      forall i, j :: 0 <= i < j < |colors| ==> colors[i].h != colors[j].h
  {
    HueRotation(base, t);
  }

  /** Monochromatic with base lightness 50 yields lightness 20, 35, 50, 65, 80. */
  lemma MonochromaticFifty(h: int, s: int)
    ensures var colors := GenerateScheme(Hsl(h, s, 50), Monochromatic);
      && (forall i :: 0 <= i < |colors| ==> colors[i].h == h && colors[i].s == s)
      && [colors[0].l, colors[1].l, colors[2].l, colors[3].l, colors[4].l] == [20, 35, 50, 65, 80]
  {
  }

  /** Monochromatic keeps hue and saturation, keeps lightness a percentage,
      and moves it by at most 30 points. */
  lemma MonochromaticBounds(base: Hsl)
    requires 0 <= base.l <= 100
    ensures var colors := GenerateScheme(base, Monochromatic);
      && |colors| == 5 && colors[2] == base
      && forall i :: 0 <= i < 5 ==>
        && colors[i].h == base.h && colors[i].s == base.s
        && 0 <= colors[i].l <= 100
        && -30 <= colors[i].l - base.l <= 30
  {
  }

  /** The monochromatic lightnesses run from darkest to lightest exactly when
      the base lightness is between 35 and 90: below 35 the floor of 20 on
      the first step exceeds the second, above 90 the cap of 90 on the
      fourth step falls below the base. */
  lemma MonochromaticOrdered(base: Hsl)
    ensures var colors := GenerateScheme(base, Monochromatic);
      (forall i :: 0 <= i < 4 ==> colors[i].l <= colors[i + 1].l) <==> 35 <= base.l <= 90
  {
    var colors := GenerateScheme(base, Monochromatic);
    if base.l < 35 {
      assert colors[0].l > colors[1].l;
    } else if base.l > 90 {
      assert colors[2].l > colors[3].l;
    }
  }
}
