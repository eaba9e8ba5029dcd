/** The contrast checker: the WCAG contrast ratio of two relative
    luminances and the four pass/fail badges computed from it. Relative
    luminance itself (`getLuminance`) is an input here, a real in [0, 1]. */
module Contrast {

  function Max(a: real, b: real): real { if a >= b then a else b }

  function Min(a: real, b: real): real { if a <= b then a else b }

  /** `calculateContrastRatio`: (lighter + 0.05) / (darker + 0.05). */
  function ContrastRatio(lum1: real, lum2: real): (ratio: real)
    requires 0.0 <= lum1 && 0.0 <= lum2
    ensures ratio >= 1.0
    ensures ratio == 1.0 <==> lum1 == lum2
  {
    var lighter := Max(lum1, lum2);
    var darker := Min(lum1, lum2);
    assert lighter + 0.05 >= darker + 0.05 > 0.0;
    (lighter + 0.05) / (darker + 0.05)
  }

  /** The ratio does not depend on which colour is text and which background. */
  lemma ContrastSymmetric(lum1: real, lum2: real)
    requires 0.0 <= lum1 && 0.0 <= lum2
    ensures ContrastRatio(lum1, lum2) == ContrastRatio(lum2, lum1)
  {
  }

  lemma DivMono(x: real, z: real, y: real)
    requires y > 0.0 && x <= z
    ensures x / y <= z / y
  {
  }

  /** For luminances in [0, 1] the ratio is at most 21, reached by black on white. */
  lemma ContrastAtMost21(lum1: real, lum2: real)
    requires 0.0 <= lum1 <= 1.0 && 0.0 <= lum2 <= 1.0
    ensures ContrastRatio(lum1, lum2) <= 21.0
    ensures ContrastRatio(0.0, 1.0) == 21.0
  {
    var lighter := Max(lum1, lum2);
    var darker := Min(lum1, lum2);
    var y := darker + 0.05;
    assert lighter + 0.05 <= 21.0 * y;
    DivMono(lighter + 0.05, 21.0 * y, y);
    assert (21.0 * y) / y == 21.0;
  }

  /** The badges of the contrast panel. */
  datatype Compliance = Compliance(aaNormal: bool, aaLarge: bool, aaaNormal: bool, aaaLarge: bool)

  const AaNormalThreshold: real := 4.5
  const AaLargeThreshold: real := 3.0
  const AaaNormalThreshold: real := 7.0
  const AaaLargeThreshold: real := 4.5

  /** The four `ratio >= threshold` tests of `updateContrast`. Passing AAA
      for normal text implies passing everything; AAA for large text is the
      same test as AA for normal text; AA for normal text implies AA for
      large text. */
  function Classify(ratio: real): (c: Compliance)
    ensures c.aaaNormal ==> c.aaNormal && c.aaLarge && c.aaaLarge
    ensures c.aaaLarge == c.aaNormal
    ensures c.aaNormal ==> c.aaLarge
  {
    Compliance(ratio >= AaNormalThreshold, ratio >= AaLargeThreshold,
               ratio >= AaaNormalThreshold, ratio >= AaaLargeThreshold)
  }

  /** A higher ratio never loses a badge. */
  lemma ClassifyMonotone(r1: real, r2: real)
    requires r1 <= r2
    ensures var c1, c2 := Classify(r1), Classify(r2);
      && (c1.aaNormal ==> c2.aaNormal) && (c1.aaLarge ==> c2.aaLarge)
      && (c1.aaaNormal ==> c2.aaaNormal) && (c1.aaaLarge ==> c2.aaaLarge)
  {
  }

  /** Black text (luminance 0) on white (luminance 1) passes all four badges,
      whichever way round. */
  lemma BlackOnWhitePasses()
    ensures Classify(ContrastRatio(0.0, 1.0)) == Compliance(true, true, true, true)
    ensures Classify(ContrastRatio(1.0, 0.0)) == Compliance(true, true, true, true)
  {
    ContrastAtMost21(0.0, 1.0);
    ContrastSymmetric(0.0, 1.0);
  }

  /** Two colours of equal luminance fail all four badges. */
  lemma SameLuminanceFails(lum: real)
    requires 0.0 <= lum
    ensures Classify(ContrastRatio(lum, lum)) == Compliance(false, false, false, false)
  {
  }
}
