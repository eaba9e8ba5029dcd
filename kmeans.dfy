/** `kMeansClustering`: k centroids drawn from the samples, refined by a
    fixed number of assign-then-recompute passes over integer RGB colours.

    The random draws of the initialisation are a parameter (`draws`, the
    values `Math.floor(Math.random() * colors.length)` took). Distances are
    compared squared: `Math.sqrt` is strictly increasing, so the winner of
    every `dist < minDist` comparison is the same. */
module KMeans {
  import opened Colour

  /** The number of refinement passes; there is no convergence test. */
  const Passes: nat := 10

  // ----- Channels and distance -----

  type ChannelIndex = i: nat | i < 3

  /** `color[i]` on the source's `[r, g, b]` arrays. */
  function Component(c: Rgb, i: ChannelIndex): Channel {
    if i == 0 then c.r else if i == 1 then c.g else c.b
  }

  /** `Math.pow(x, 2)`, exact on integers. */
  function Square(x: int): (s: nat)
    ensures s == 0 <==> x == 0
  {
    var a := if x < 0 then -x else x;
    assert a * a >= a;
    a * a
  }

  /** The squared Euclidean distance between two colours in RGB space. */
  function Dist2(a: Rgb, b: Rgb): (d: nat)
    ensures d == 0 <==> a == b
  {
    Square(a.r - b.r) + Square(a.g - b.g) + Square(a.b - b.b)
  }

  // ----- Assignment -----

  /** The index the scan over `centroids[0..n)` settles on. It is at minimal
      distance, and since the test is a strict `<`, every centroid before it
      is strictly farther: the lowest index wins a tie. */
  function NearestIn(c: Rgb, centroids: seq<Rgb>, n: nat): (best: nat)
    requires 1 <= n <= |centroids|
    ensures best < n
    ensures forall j :: 0 <= j < n ==> Dist2(c, centroids[best]) <= Dist2(c, centroids[j])
    ensures forall j :: 0 <= j < best ==> Dist2(c, centroids[best]) < Dist2(c, centroids[j])
  {
    if n == 1 then 0
    else
      var best := NearestIn(c, centroids, n - 1);
      if Dist2(c, centroids[n - 1]) < Dist2(c, centroids[best]) then n - 1 else best
  }

  /** The cluster a sample joins in a pass: a centroid at minimal distance,
      the lowest index among those. */
  function Nearest(c: Rgb, centroids: seq<Rgb>): (best: nat)
    requires |centroids| >= 1
    ensures best < |centroids|
    ensures forall j :: 0 <= j < |centroids| ==> Dist2(c, centroids[best]) <= Dist2(c, centroids[j])
    ensures forall j :: 0 <= j < best ==> Dist2(c, centroids[best]) < Dist2(c, centroids[j])
  {
    NearestIn(c, centroids, |centroids|)
  }

  /** `clusters[j]` after the samples of `s` have been pushed in order. */
  function Members(s: seq<Rgb>, centroids: seq<Rgb>, j: nat): seq<Rgb>
    requires |centroids| >= 1
  {
    if |s| == 0 then []
    else
      var front := Members(s[..|s| - 1], centroids, j);
      if Nearest(s[|s| - 1], centroids) == j then front + [s[|s| - 1]] else front
  }

  // ----- Recomputation -----

  /** The per-channel sum the source's `reduce` accumulates from `[0, 0, 0]`. */
  function Sum(cluster: seq<Rgb>, i: ChannelIndex): nat {
    if |cluster| == 0 then 0
    else Sum(cluster[..|cluster| - 1], i) + Component(cluster[|cluster| - 1], i)
  }

  /** `Math.round(sum / n)`: the integer m with m - 1/2 <= sum / n < m + 1/2
      (halves round up). */
  function RoundedMean(sum: nat, n: nat): (m: nat)
    requires n > 0
    ensures n * (2 * m - 1) <= 2 * sum < n * (2 * m + 1)
  {
    var q := (2 * sum + n) / (2 * n);
    assert 2 * sum + n == (2 * n) * q + (2 * sum + n) % (2 * n);
    assert n * (2 * q - 1) == (2 * n) * q - n;
    assert n * (2 * q + 1) == (2 * n) * q + n;
    q
  }

  lemma MulMono(n: nat, a: int, b: int)
    requires a <= b
    ensures n * a <= n * b
  {
    assert n * b - n * a == n * (b - a);
  }

  lemma SuccMul(n: int, x: int)
    ensures (n + 1) * x == n * x + x
  {
  }

  lemma Scale(n: int, x: int)
    ensures n * (2 * x - 1) == 2 * (n * x) - n
    ensures n * (2 * x + 1) == 2 * (n * x) + n
  {
  }

  /** A rounded mean of values in [lo, hi] stays in [lo, hi]. */
  lemma RoundedMeanBetween(sum: nat, n: nat, lo: int, hi: int)
    requires n > 0 && n * lo <= sum <= n * hi
    ensures lo <= RoundedMean(sum, n) <= hi
  {
    var m := RoundedMean(sum, n);
    Scale(n, lo);
    Scale(n, hi);
    if m < lo {
      MulMono(n, 2 * m + 1, 2 * lo - 1);
      assert false;
    }
    if m > hi {
      MulMono(n, 2 * hi + 1, 2 * m - 1);
      assert false;
    }
  }

  /** Summing values in [lo, hi] gives a total in [n * lo, n * hi]. */
  lemma {:induction false} SumBetween(cluster: seq<Rgb>, i: ChannelIndex, lo: int, hi: int)
    requires forall x :: x in cluster ==> lo <= Component(x, i) <= hi
    ensures |cluster| * lo <= Sum(cluster, i) <= |cluster| * hi
  {
    if |cluster| > 0 {
      var front := cluster[..|cluster| - 1];
      assert forall x :: x in front ==> x in cluster;
      SumBetween(front, i, lo, hi);
      var last := cluster[|cluster| - 1];
      assert last in cluster;
      assert Sum(cluster, i) == Sum(front, i) + Component(last, i);
      SuccMul(|front|, lo);
      SuccMul(|front|, hi);
    }
  }

  /** The new centroid of a non-empty cluster: per channel, the sum of the
      cluster divided by its size, rounded to the nearest integer. */
  function Mean(cluster: seq<Rgb>): (m: Rgb)
    requires |cluster| > 0
    ensures forall i: ChannelIndex ::
      |cluster| * (2 * Component(m, i) - 1) <= 2 * Sum(cluster, i) < |cluster| * (2 * Component(m, i) + 1)
  {
    var n := |cluster|;
    SumBetween(cluster, 0, 0, 255);
    SumBetween(cluster, 1, 0, 255);
    SumBetween(cluster, 2, 0, 255);
    RoundedMeanBetween(Sum(cluster, 0), n, 0, 255);
    RoundedMeanBetween(Sum(cluster, 1), n, 0, 255);
    RoundedMeanBetween(Sum(cluster, 2), n, 0, 255);
    Rgb(RoundedMean(Sum(cluster, 0), n), RoundedMean(Sum(cluster, 1), n), RoundedMean(Sum(cluster, 2), n))
  }

  /** What `clusters.map` gives one cluster: its mean, or, when it is empty,
      the previous pass's `centroids[0]`. */
  function NewCentroid(cluster: seq<Rgb>, fallback: Rgb): Rgb {
    if |cluster| == 0 then fallback else Mean(cluster)
  }

  /** One pass: assign every sample, then recompute every centroid, keeping
      centroid-index order. */
  function Step(colors: seq<Rgb>, centroids: seq<Rgb>): (next: seq<Rgb>)
    requires |centroids| >= 1
    ensures |next| == |centroids|
  {
    seq(|centroids|, j requires 0 <= j < |centroids| =>
      NewCentroid(Members(colors, centroids, j), centroids[0]))
  }

  /** The centroids after a number of passes. */
  function Iterate(colors: seq<Rgb>, centroids: seq<Rgb>, passes: nat): (final: seq<Rgb>)
    requires |centroids| >= 1
    ensures |final| == |centroids|
  {
    if passes == 0 then centroids else Step(colors, Iterate(colors, centroids, passes - 1))
  }

  // ----- Initialisation and the whole algorithm -----

  /** Each draw is `Math.floor(Math.random() * n)`: below n, or 0 when n is 0. */
  predicate ValidDraws(draws: seq<nat>, n: nat) {
    forall i :: 0 <= i < |draws| ==> draws[i] < n || draws[i] == 0
  }

  /** The initial centroids: one sample per draw, with replacement. */
  function Seeds(colors: seq<Rgb>, draws: seq<nat>): (init: seq<Rgb>)
    requires |colors| > 0 && ValidDraws(draws, |colors|)
    ensures |init| == |draws|
    ensures forall i :: 0 <= i < |init| ==> init[i] in colors
  {
    seq(|draws|, i requires 0 <= i < |draws| => colors[draws[i]])
  }

  /** What `kMeansClustering(colors, k)` returns, k being the number of draws.
      With no samples the source has no colour to seed from and returns k
      `undefined` entries: here `None`. */
  function KMeansSpec(colors: seq<Rgb>, draws: seq<nat>): (result: Option<seq<Rgb>>)
    requires |draws| >= 1 && ValidDraws(draws, |colors|)
    ensures result.None? <==> |colors| == 0
    ensures result.Some? ==> |result.value| == |draws|
  {
    if |colors| == 0 then None else Some(Iterate(colors, Seeds(colors, draws), Passes))
  }

  /** The inner `centroids.forEach` for one sample: scan the centroids in
      order, moving to a centroid only when it is strictly nearer. The
      source starts from `minDist = Infinity`, which the first centroid
      always beats; the scan here starts with centroid 0 taken. */
  method FindNearest(color: Rgb, centroids: seq<Rgb>) returns (clusterIndex: nat)
    requires |centroids| >= 1
    ensures clusterIndex == Nearest(color, centroids)
  {
    var minDist := Dist2(color, centroids[0]);
    clusterIndex := 0;
    for i := 1 to |centroids|
      invariant clusterIndex == NearestIn(color, centroids, i)
      invariant minDist == Dist2(color, centroids[clusterIndex])
    {
      var dist := Dist2(color, centroids[i]);
      if dist < minDist {
        minDist := dist;
        clusterIndex := i;
      }
    }
  }

  /** The `colors.forEach` of one pass: push every sample onto the cluster of
      its nearest centroid. */
  method AssignSamples(colors: seq<Rgb>, centroids: seq<Rgb>) returns (clusters: seq<seq<Rgb>>)
    requires |centroids| >= 1
    ensures |clusters| == |centroids|
    ensures forall j :: 0 <= j < |centroids| ==> clusters[j] == Members(colors, centroids, j)
  {
    clusters := seq(|centroids|, _ => []);
    for ci := 0 to |colors|
      invariant |clusters| == |centroids|
      invariant forall j :: 0 <= j < |centroids| ==> clusters[j] == Members(colors[..ci], centroids, j)
    {
      var color := colors[ci];
      var clusterIndex := FindNearest(color, centroids);
      assert colors[..ci + 1][..ci] == colors[..ci];
      clusters := clusters[clusterIndex := clusters[clusterIndex] + [color]];
    }
    assert colors[..|colors|] == colors;
  }

  /** `kMeansClustering`, step by step as the source runs it. */
  method KMeansClustering(colors: seq<Rgb>, k: nat, draws: seq<nat>) returns (result: Option<seq<Rgb>>)
    requires k >= 1 && |draws| == k && ValidDraws(draws, |colors|)
    ensures result == KMeansSpec(colors, draws)
    ensures result.Some? ==> |result.value| == k
  {
    if |colors| == 0 {
      return None;
    }
    var centroids: seq<Rgb> := [];
    for i := 0 to k
      invariant |centroids| == i
      invariant forall p :: 0 <= p < i ==> centroids[p] == colors[draws[p]]
    {
      centroids := centroids + [colors[draws[i]]];
    }
    assert centroids == Seeds(colors, draws);

    for iter := 0 to Passes
      invariant |centroids| == k
      invariant centroids == Iterate(colors, Seeds(colors, draws), iter)
    {
      var clusters := AssignSamples(colors, centroids);
      var previous := centroids;
      centroids := seq(k, j requires 0 <= j < k => NewCentroid(clusters[j], previous[0]));
      assert centroids == Step(colors, previous);
    }
    return Some(centroids);
  }

  // ----- Properties -----

  /** A sample is in cluster j exactly when it is one of the samples and
      its nearest centroid is j: every sample lands in exactly one cluster. */
  lemma {:induction false} MembersExactly(s: seq<Rgb>, centroids: seq<Rgb>, j: nat, x: Rgb)
    requires |centroids| >= 1
    ensures x in Members(s, centroids, j) <==> x in s && Nearest(x, centroids) == j
  {
    if |s| > 0 {
      var front := s[..|s| - 1];
      MembersExactly(front, centroids, j, x);
      assert s == front + [s[|s| - 1]];
    }
  }

  /** A cluster that no sample is nearest to takes the previous pass's
      `centroids[0]`, not its own previous value. */
  lemma EmptyClusterFallback(colors: seq<Rgb>, centroids: seq<Rgb>, j: nat)
    requires 1 <= |centroids| && j < |centroids|
    requires forall x :: x in colors ==> Nearest(x, centroids) != j
    ensures Step(colors, centroids)[j] == centroids[0]
  {
    var m := Members(colors, centroids, j);
    if |m| > 0 {
      MembersExactly(colors, centroids, j, m[0]);
      assert false;
    }
  }

  /** Per-channel bounds lo <= c <= hi. */
  predicate InBox(c: Rgb, lo: Rgb, hi: Rgb) {
    && lo.r <= c.r <= hi.r
    && lo.g <= c.g <= hi.g
    && lo.b <= c.b <= hi.b
  }

  /** The mean of a non-empty cluster lies between the cluster's channel
      minima and maxima. */
  lemma MeanInBox(cluster: seq<Rgb>, lo: Rgb, hi: Rgb)
    requires |cluster| > 0
    requires forall x :: x in cluster ==> InBox(x, lo, hi)
    ensures InBox(Mean(cluster), lo, hi)
  {
    var n := |cluster|;
    SumBetween(cluster, 0, lo.r, hi.r);
    SumBetween(cluster, 1, lo.g, hi.g);
    SumBetween(cluster, 2, lo.b, hi.b);
    RoundedMeanBetween(Sum(cluster, 0), n, lo.r, hi.r);
    RoundedMeanBetween(Sum(cluster, 1), n, lo.g, hi.g);
    RoundedMeanBetween(Sum(cluster, 2), n, lo.b, hi.b);
  }

  /** A pass keeps the centroids inside any box holding all samples and all
      current centroids. */
  lemma StepInBox(colors: seq<Rgb>, centroids: seq<Rgb>, lo: Rgb, hi: Rgb)
    requires |centroids| >= 1
    requires forall x :: x in colors ==> InBox(x, lo, hi)
    requires forall y :: y in centroids ==> InBox(y, lo, hi)
    ensures forall y :: y in Step(colors, centroids) ==> InBox(y, lo, hi)
  {
    var next := Step(colors, centroids);
    forall j | 0 <= j < |centroids|
      ensures InBox(next[j], lo, hi)
    {
      var m := Members(colors, centroids, j);
      if |m| == 0 {
        assert centroids[0] in centroids;
      } else {
        forall x | x in m
          ensures InBox(x, lo, hi)
        {
          MembersExactly(colors, centroids, j, x);
        }
        MeanInBox(m, lo, hi);
      }
    }
  }

  lemma {:induction false} IterateInBox(colors: seq<Rgb>, centroids: seq<Rgb>, passes: nat, lo: Rgb, hi: Rgb)
    requires |centroids| >= 1
    requires forall x :: x in colors ==> InBox(x, lo, hi)
    requires forall y :: y in centroids ==> InBox(y, lo, hi)
    ensures forall y :: y in Iterate(colors, centroids, passes) ==> InBox(y, lo, hi)
  {
    if passes > 0 {
      IterateInBox(colors, centroids, passes - 1, lo, hi);
      StepInBox(colors, Iterate(colors, centroids, passes - 1), lo, hi);
    }
  }

  /** Every returned centroid lies in the per-channel bounding box of the
      samples. */
  lemma KMeansInBox(colors: seq<Rgb>, draws: seq<nat>, lo: Rgb, hi: Rgb)
    requires |draws| >= 1 && ValidDraws(draws, |colors|)
    requires forall x :: x in colors ==> InBox(x, lo, hi)
    ensures KMeansSpec(colors, draws).Some? ==>
      forall y :: y in KMeansSpec(colors, draws).value ==> InBox(y, lo, hi)
  {
    if |colors| > 0 {
      IterateInBox(colors, Seeds(colors, draws), Passes, lo, hi);
    }
  }

  /** When every sample is the colour c, every returned centroid is c. */
  lemma KMeansUniform(colors: seq<Rgb>, draws: seq<nat>, c: Rgb)
    requires |colors| > 0 && |draws| >= 1 && ValidDraws(draws, |colors|)
    requires forall x :: x in colors ==> x == c
    ensures KMeansSpec(colors, draws) == Some(seq(|draws|, _ => c))
  {
    KMeansInBox(colors, draws, c, c);
    var final := KMeansSpec(colors, draws).value;
    forall i | 0 <= i < |final|
      ensures final[i] == c
    {
      assert final[i] in final;
      assert InBox(final[i], c, c);
    }
    assert final == seq(|draws|, _ => c);
  }
}
