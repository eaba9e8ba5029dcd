# colorcraft colour-science core, in Dafny

colorcraft is a browser toolkit with four tools: a palette extractor, a
gradient generator, a WCAG contrast checker and a colour-scheme generator.
Almost all of `script.js` is DOM, markup and clipboard glue. This project
models the part that computes:

- **Hex codec** (`hex_codec.dfy`, module `HexCodec`). `hexToRgb` parses
  `#rrggbb` or `rrggbb` in either case, and gives `null`, here `None`, for
  anything else. `rgbToHex` writes `(1 << 24) + (r << 16) + (g << 8) + b` in
  base 16 and drops the leading `1`. The model follows that arithmetic and
  proves that the result is `#` followed by three lowercase, zero-padded
  pairs.
- **Pixel sampling** (`sampling.dfy`, module `Sampling`). The loop over the
  RGBA buffer keeps `[r, g, b]` of each pixel. Then `filter` keeps every
  tenth colour.
- **K-means clusterer** (`kmeans.dfy`, module `KMeans`). `kMeansClustering`
  draws k centroids from the samples. It then runs exactly 10 passes. Each
  pass assigns every sample to its nearest centroid (the first one on a
  tie), then gives each cluster its rounded mean. An empty cluster gets the
  previous pass's `centroids[0]`. The method `KMeansClustering` runs the
  source's nested loops. It is proved equal to the functional definition
  `KMeansSpec`, and the lemmas about the outcome are stated on `KMeansSpec`.
- **Palette pipeline** (`palette.dfy`, module `Palette`). This is the part
  of `extractColors` that computes: sample the buffer, then cluster with
  k = 6.
- **Scheme rules** (`scheme.dfy`, module `Scheme`). The `switch` of
  `updateScheme` maps an integer HSL base colour to 2 to 5 HSL colours. It
  uses hue rotations reduced with JavaScript's `% 360`, and lightness steps
  clamped by `Math.max`/`Math.min`.
- **Contrast** (`contrast.dfy`, module `Contrast`). `calculateContrastRatio`
  combines two relative luminances into a ratio. The four WCAG badges test
  that ratio against 4.5, 3, 7 and 4.5.

`colour.dfy` (module `Colour`) holds the shared 8-bit `Channel`, the `Rgb`
colour and `Option`.

Modelling choices:

- The random centroid seeding is a parameter. `draws` holds the values
  `Math.floor(Math.random() * colors.length)` took: each is below the
  number of samples, or 0 when there are none.
- Distances are compared squared. `Math.sqrt` is strictly increasing, so
  every `dist < minDist` test has the same outcome. The source starts its
  scan with `minDist = Infinity`, which the first centroid always beats.
  The model starts with centroid 0 already chosen.
- `Math.round(sum / n)` with `sum >= 0` and `n > 0` is modelled as
  `(2 * sum + n) / (2 * n)` in integer division. Its contract is Math.round's
  meaning: the integer m with m - 1/2 <= sum/n < m + 1/2.
- JavaScript's `%` truncates toward zero. `Scheme.Remainder360` models it
  for inputs of either sign.

Three behaviours of the code that a reader might not expect, all of which
the model follows:

- An empty cluster takes the previous pass's `centroids[0]`. It does not
  keep its own previous centroid (script.js:414).
- `rgbToHex` emits lowercase. Only the display uppercases it
  (script.js:81, 443, 894).
- The monochromatic `+15` step is capped at 90 (script.js:881). The `-15`
  step is floored at 10 and the `+30` step capped at 95.

## Model

| member | source | states |
|---|---|---|
| `HexCodec.HexToRgb` | script.js:71-77 | accepts exactly six hex digits in either case, optionally after one `#`, and otherwise gives `None`; each channel is its pair of digits read in base 16 |
| `HexCodec.HexDigit` | script.js:81 | the base-16 digit written for 0..15 is a hex digit that reads back as that value, and is never uppercase |
| `HexCodec.LeadingOne` | script.js:81 | writing 2^24 + v in base 16 gives a `1` followed by v as six zero-padded digits, so `slice(1)` leaves exactly those six digits |
| `HexCodec.RgbToHex` | script.js:80-82 | the result is `#` followed by the two-digit lowercase zero-padded hex of r, g and b, in that order |
| `HexCodec.RgbToHexShape` | script.js:80-82 | the output is seven characters: `#` and six lowercase hex digits |
| `HexCodec.RoundTrip` | script.js:71-82 | `hexToRgb(rgbToHex(r, g, b))` gives back r, g and b for every 8-bit colour |
| `HexCodec.CanonicalDigits` | script.js:71-82 | six hex digits read as three base-16 pairs and written back give `#` and the same six digits in lowercase |
| `HexCodec.Canonical` | script.js:71-82 | re-encoding a parsed string gives `#` and the string's six digits in lowercase, whether or not it had a `#` |
| `Sampling.EveryTenth` | script.js:376 | the filtered sequence has ceil(n/10) elements, and its j-th element is colour 10·j |
| `Sampling.SamplePixels` | script.js:370-376 | the samples are the RGB bytes of pixels 0, 10, 20, … with alpha dropped; there are ceil((len/4)/10) of them |
| `Palette.ExtractColors` | script.js:370-379 | the palette is the clustering of the sampled pixels with k = 6; it is absent exactly when the buffer is empty, and otherwise has six colours |
| `Palette.UniformImage` | script.js:370-379 | an image all of one colour c yields the palette c, six times |
| `KMeans.Square` | script.js:400-402 | a squared channel difference is non-negative and is zero exactly when the difference is zero |
| `KMeans.Dist2` | script.js:399-403 | the squared RGB distance is zero exactly when the two colours are equal |
| `KMeans.NearestIn` | script.js:394-408 | the scan ends at a centroid of minimal distance, and every earlier centroid is strictly farther, so the lowest index wins ties |
| `KMeans.Nearest` | script.js:394-410 | the cluster a sample joins is one of the k clusters, at minimal distance from the sample, and no centroid before it is as near (the lowest index wins a tie) |
| `KMeans.FindNearest` | script.js:395-408 | the inner loop over centroids computes exactly the nearest centroid as defined by `NearestIn` |
| `KMeans.AssignSamples` | script.js:392-411 | after the loop over samples there are k clusters, and cluster j holds, in sample order, the samples whose nearest centroid is j |
| `KMeans.MembersExactly` | script.js:394-411 | a colour is in cluster j exactly when it is a sample whose nearest centroid is j, so every sample is in one cluster and no other |
| `KMeans.RoundedMean` | script.js:420-424 | the result is Math.round(sum/n): the integer m with m − 1/2 ≤ sum/n < m + 1/2 |
| `KMeans.RoundedMeanBetween` | script.js:420-424 | a rounded mean of values in [lo, hi] lies in [lo, hi] |
| `KMeans.SumBetween` | script.js:415-419 | the per-channel sum of a cluster whose values lie in [lo, hi] lies in [n·lo, n·hi] |
| `KMeans.Mean` | script.js:415-424 | each channel of a non-empty cluster's new centroid is that channel's sum divided by the cluster size, rounded to nearest, halves up |
| `KMeans.MeanInBox` | script.js:413-425 | the new centroid of a non-empty cluster lies between the cluster's per-channel minima and maxima, and so in [0, 255] |
| `KMeans.EmptyClusterFallback` | script.js:413-414 | a cluster that no sample is nearest to takes the previous pass's `centroids[0]` |
| `KMeans.Step` | script.js:392-425 | a pass returns as many centroids as it was given, in centroid-index order |
| `KMeans.Iterate` | script.js:391-426 | any number of passes keeps the number of centroids |
| `KMeans.Seeds` | script.js:386-389 | there is one initial centroid per draw, and each is one of the samples |
| `KMeans.KMeansSpec` | script.js:384-429 | the result is absent exactly when there are no samples; otherwise it has exactly k centroids after 10 passes |
| `KMeans.KMeansClustering` | script.js:384-429 | the nested loops return exactly `KMeansSpec`: k centroids after 10 passes, with no convergence check |
| `KMeans.StepInBox` | script.js:391-426 | a pass keeps the centroids inside any per-channel box that holds all samples and all current centroids |
| `KMeans.IterateInBox` | script.js:391-426 | repeated passes keep the centroids inside such a box |
| `KMeans.KMeansInBox` | script.js:384-429 | every returned centroid lies in the per-channel bounding box of the samples |
| `KMeans.KMeansUniform` | script.js:384-429 | when every sample equals c, every one of the k returned centroids equals c |
| `Scheme.Remainder360` | script.js:851 | JavaScript's `% 360` has the sign of the dividend, is smaller than 360 in size, and differs from the dividend by a multiple of 360 |
| `Scheme.GenerateScheme` | script.js:845-885 | every scheme has 2 to 5 colours and contains the base colour itself |
| `Scheme.TurnedHue` | script.js:851-873 | a rotated entry keeps saturation and lightness, and its hue is congruent to base + offset mod 360 and lies in [0, 360) for a non-negative dividend |
| `Scheme.ComplementaryHues` | script.js:848-853 | complementary gives the base and the base hue turned by 180 mod 360, with s and l copied |
| `Scheme.AnalogousHues` | script.js:854-860 | analogous gives the base hue turned by −30 (through `h - 30 + 360`), the base, and the base hue turned by 30, with s and l copied |
| `Scheme.TriadicHues` | script.js:861-867 | triadic gives the base and the base hue turned by 120 and by 240 mod 360, with s and l copied |
| `Scheme.TetradicHues` | script.js:868-875 | tetradic gives the base and the base hue turned by 90, 180 and 270 mod 360, with s and l copied |
| `Scheme.HueRotation` | script.js:847-875 | complementary, analogous, triadic and tetradic give one colour per offset of {0,180}, {−30,0,30}, {0,120,240} and {0,90,180,270}: the unreduced base for offset 0, else the base hue turned by the offset mod 360, with s and l copied |
| `Scheme.DistinctHues` | script.js:847-875 | for a base hue in [0, 360], which covers the 360 that `rgbToHsl` returns for hues just below a full turn, the hues of a rotation scheme are pairwise different |
| `Scheme.MonochromaticFifty` | script.js:876-884 | a base lightness of 50 gives lightnesses 20, 35, 50, 65, 80 with hue and saturation unchanged |
| `Scheme.MonochromaticBounds` | script.js:876-884 | monochromatic keeps hue and saturation, puts the base third, keeps lightness within [0, 100], and moves it by at most 30 |
| `Scheme.MonochromaticOrdered` | script.js:876-884 | the five lightnesses run from dark to light exactly when the base lightness is within [35, 90] |
| `Contrast.ContrastRatio` | script.js:751-759 | the ratio is at least 1, and equals 1 exactly when the two luminances are equal |
| `Contrast.ContrastSymmetric` | script.js:751-759 | swapping text and background leaves the ratio unchanged |
| `Contrast.ContrastAtMost21` | script.js:751-759 | for luminances in [0, 1] the ratio is at most 21, and black on white reaches 21 |
| `Contrast.Classify` | script.js:726-739 | of the badges, AAA normal implies all the others, AAA large equals AA normal, and AA normal implies AA large |
| `Contrast.ClassifyMonotone` | script.js:726-739 | a higher ratio never loses a badge |
| `Contrast.BlackOnWhitePasses` | script.js:717-739 | black text on white, or white on black, passes all four badges |
| `Contrast.SameLuminanceFails` | script.js:717-739 | two colours of equal luminance fail all four badges |

## Left out

- `getLuminance` (script.js:761-768) is left out. It uses floating-point sRGB linearisation with `Math.pow(…, 2.4)`. The contrast model takes the two luminances as reals.
- `rgbToHsl` and `hslToRgb` (script.js:84-145) are left out. They use float division and rounding of fractional hues. The scheme model takes an integer HSL base colour and does not convert its results back to RGB or hex.
- `Math.random` seeding (script.js:388) is a parameter, `draws`: the values the random draws took.
- Canvas scaling, `drawImage`, `getImageData` (script.js:354-367), and `FileReader`/`Image` loading (script.js:341-351) are left out. They are browser I/O. The buffer is an input array.
- Everything else in script.js is left out: DOM and markup templates, modal and menu handling, clipboard, notifications, `ratio.toFixed(2)`, and the `toUpperCase` for display. It renders results and computes nothing.
- The gradient CSS string (script.js:586-591) is left out. It is a one-line template over control values.
- Floating point is left out. The ratio and thresholds are over exact reals; JavaScript uses doubles. The rounded mean is exact integer arithmetic. It matches `Math.round` on doubles for any cluster a canvas can produce.
- KMeans.KMeansSpec: with no samples the source seeds from `colors[0]` of an empty array (script.js:388) and then copies `centroids[0]` into every empty cluster (script.js:414), so it returns k `undefined` entries, which later crash `displayPalette` (script.js:437). The model returns `None` instead of that array.
- Palette.ExtractColors: inherits the `None` of `KMeans.KMeansSpec` for an empty buffer, in place of the source's array of six `undefined` entries.
- KMeans.KMeansClustering: requires k >= 1. With k = 0 and at least one sample the source throws on `clusters[0].push`; with k = 0 and no samples it returns `[]` without throwing. Its only caller passes 6.
- KMeans.KMeansSpec: requires k >= 1 (one draw at least), for the same reason as `KMeans.KMeansClustering`; the k = 0 cases of the source (a throw with samples, `[]` without) are not modelled.
- Sampling.SamplePixels: requires the buffer length to be a multiple of 4. A canvas `ImageData` buffer always holds 4·width·height bytes.
- HexCodec.RgbToHex: takes channels in [0, 255] only. It does not model the 32-bit shifts or negative `toString(16)` output that other numbers would produce. Every caller passes 8-bit channels.
- Scheme.GenerateScheme: takes the scheme type from the five options of the selector. It does not model the empty list the `switch` would leave for any other value.
