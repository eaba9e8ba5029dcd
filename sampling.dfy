/** Turning the canvas's RGBA byte buffer into the sample sequence the
    clusterer runs on: one RGB colour per pixel, alpha dropped, and then
    only every tenth pixel kept. */
module Sampling {
  import opened Colour

  /** Keep one pixel in this many. */
  const Stride: nat := 10

  /** One RGB colour per RGBA pixel, in buffer order (the `colors` array the
      source pushes into). */
  function PixelColors(pixels: seq<Channel>): seq<Rgb>
    requires |pixels| % 4 == 0
  {
    seq(|pixels| / 4, p requires 0 <= p < |pixels| / 4 =>
      Rgb(pixels[4 * p], pixels[4 * p + 1], pixels[4 * p + 2]))
  }

  /** `colors.filter((_, i) => i % 10 === 0)`: the elements at indices
      0, 10, 20, ..., which are ceil(n / 10) many. */
  function EveryTenth(colors: seq<Rgb>): (samples: seq<Rgb>)
    ensures |samples| == (|colors| + Stride - 1) / Stride
    ensures forall j :: 0 <= j < |samples| ==> samples[j] == colors[Stride * j]
    decreases |colors|
  {
    if |colors| == 0 then []
    else
      var rest := colors[if |colors| < Stride then |colors| else Stride..];
      [colors[0]] + EveryTenth(rest)
  }

  /** The sampling step of `extractColors`: walk the buffer four bytes at a
      time collecting RGB triples, then keep every tenth. */
  method SamplePixels(pixels: array<Channel>) returns (samples: seq<Rgb>)
    requires pixels.Length % 4 == 0
    ensures samples == EveryTenth(PixelColors(pixels[..]))
    ensures |samples| == (pixels.Length / 4 + Stride - 1) / Stride
    ensures forall j :: 0 <= j < |samples| ==>
      samples[j] == Rgb(pixels[40 * j], pixels[40 * j + 1], pixels[40 * j + 2])
  {
    var colors: seq<Rgb> := [];
    var i := 0;
    while i < pixels.Length
      invariant 0 <= i <= pixels.Length && i % 4 == 0
      invariant |colors| == i / 4
      invariant forall p :: 0 <= p < |colors| ==>
        colors[p] == Rgb(pixels[4 * p], pixels[4 * p + 1], pixels[4 * p + 2])
    {
      colors := colors + [Rgb(pixels[i], pixels[i + 1], pixels[i + 2])];
      i := i + 4;
    }
    assert colors == PixelColors(pixels[..]);
    samples := EveryTenth(colors);
    forall j | 0 <= j < |samples|
      ensures samples[j] == Rgb(pixels[40 * j], pixels[40 * j + 1], pixels[40 * j + 2])
    {
      assert samples[j] == colors[Stride * j];
      assert 4 * (Stride * j) == 40 * j;
    }
  }
}
