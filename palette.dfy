/** The computational part of `extractColors`: sample the pixel buffer and
    reduce the samples to a six-colour palette. */
module Palette {
  import opened Colour
  import opened Sampling
  import opened KMeans

  /** `kMeansClustering(sampledColors, 6)`. */
  const PaletteSize: nat := 6

  /** The number of samples a buffer of RGBA pixels yields. */
  function SampleCount(bufferLength: nat): nat {
    (bufferLength / 4 + Stride - 1) / Stride
  }

  /** From the RGBA buffer to the dominant colours, in centroid order. */
  method ExtractColors(pixels: array<Channel>, draws: seq<nat>) returns (palette: Option<seq<Rgb>>)
    requires pixels.Length % 4 == 0
    requires |draws| == PaletteSize && ValidDraws(draws, SampleCount(pixels.Length))
    ensures palette == KMeansSpec(EveryTenth(PixelColors(pixels[..])), draws)
    ensures palette.None? <==> pixels.Length == 0
    ensures palette.Some? ==> |palette.value| == PaletteSize
  {
    var samples := SamplePixels(pixels);
    palette := KMeansClustering(samples, PaletteSize, draws);
  }

  /** An image whose pixels all have the colour c yields c six times over. */
  lemma UniformImage(pixels: seq<Channel>, draws: seq<nat>, c: Rgb)
    requires |pixels| % 4 == 0 && |pixels| > 0
    requires forall x :: x in PixelColors(pixels) ==> x == c
    requires |draws| == PaletteSize && ValidDraws(draws, SampleCount(|pixels|))
    ensures KMeansSpec(EveryTenth(PixelColors(pixels)), draws) == Some(seq(PaletteSize, _ => c))
  {
    var colors := PixelColors(pixels);
    var samples := EveryTenth(colors);
    forall x | x in samples
      ensures x == c
    {
      var j :| 0 <= j < |samples| && samples[j] == x;
      assert colors[Stride * j] in colors;
    }
    KMeansUniform(samples, draws, c);
  }
}
