/**
 What `mediancut.c` computes about one box of the histogram: mean colour, per-channel
 variance, errors and split score, and why a box worth splitting has weight to split by.
 */
module BoxStats {
  import opened ColorMetric
  import opened Permutations
  import opened HistSort

  datatype Box = Box(color: Pixel, variance: Pixel, sum: real, totalError: real, maxError: real, ind: nat, colors: nat)

  // ----- terms of the sums

  function Adjusted(h: HistItem): real { h.adjustedWeight }

  function Perceptual(h: HistItem): real { h.perceptualWeight }

  datatype Channel = A | R | G | B

  function Get(px: Pixel, c: Channel): real {
    match c
    case A => px.a
    case R => px.r
    case G => px.g
    case B => px.b
  }

  function Weighted(c: Channel): HistItem -> real {
    (h: HistItem) => Get(h.acolor, c) * h.adjustedWeight
  }

  /** Differences below the visible threshold count for a quarter. */
  function VarianceDiff(val: real, goodEnough: real): real {
    if val * val < goodEnough * goodEnough then val * val * 0.25 else val * val
  }

  function GoodEnough(c: Channel): real {
    if c == A then 2.0 / 256.0 else 1.0 / 256.0
  }

  function Deviation(mean: Pixel, c: Channel): HistItem -> real {
    (h: HistItem) => VarianceDiff(Get(mean, c) - Get(h.acolor, c), GoodEnough(c)) * h.adjustedWeight
  }

  function ErrorTerm(avg: Pixel): HistItem -> real {
    (h: HistItem) => ColorDifference(avg, h.acolor) * h.perceptualWeight
  }

  // ----- specifications

  /** Weighted mean of one channel; plain sum when the weights cancel out. */
  function Mean(c: Channel, s: seq<HistItem>): real {
    var sum := Sum(Adjusted, s);
    if sum != 0.0 then Sum(Weighted(c), s) / sum else Sum(Weighted(c), s)
  }

  function Average(s: seq<HistItem>): Pixel {
    Pixel(Mean(A, s), Mean(R, s), Mean(G, s), Mean(B, s))
  }

  function Variance(mean: Pixel, s: seq<HistItem>): Pixel {
    Pixel(Sum(Deviation(mean, A), s) * (4.0 / 16.0), Sum(Deviation(mean, R), s) * (7.0 / 16.0),
          Sum(Deviation(mean, G), s) * (9.0 / 16.0), Sum(Deviation(mean, B), s) * (5.0 / 16.0))
  }

  function MaxError(mean: Pixel, s: seq<HistItem>): real {
    if s == [] then 0.0 else
      var rest := MaxError(mean, s[..|s| - 1]);
      var diff := ColorDifference(mean, s[|s| - 1].acolor);
      if diff > rest then diff else rest
  }

  function BoxError(avg: Pixel, s: seq<HistItem>): real {
    Sum(ErrorTerm(avg), s)
  }

  /** How much a box deserves to be split next. */
  function Score(b: Box, maxMse: real): real
    requires maxMse > 0.0
  {
    var cv := Max(b.variance.r, Max(b.variance.g, b.variance.b));
    var thissum := b.sum * Max(b.variance.a, cv);
    if b.maxError > maxMse then thissum * b.maxError / maxMse else thissum
  }

  /** Weight an item contributes to the split: its distance from the median, damped by popularity. */
  function ColorWeight(sqrt: real -> real, median: Pixel, h: HistItem): real {
    sqrt(ColorDifference(median, h.acolor)) * (sqrt(1.0 + h.adjustedWeight) - 1.0)
  }

  // ----- what they measure

  /** How far an item lies above m in a channel, times its weight. */
  function Offset(c: Channel, m: real): HistItem -> real {
    (h: HistItem) => (Get(h.acolor, c) - m) * h.adjustedWeight
  }

  /** The mean is the one value around which the weighted offsets cancel out. */
  lemma {:induction false} MeanBalances(c: Channel, s: seq<HistItem>, m: real)
    requires Sum(Adjusted, s) != 0.0
    ensures Sum(Offset(c, m), s) == 0.0 <==> m == Mean(c, s)
  {
    OffsetSum(c, s, m);
    hide Sum;
    Quotient(Sum(Weighted(c), s), m, Sum(Adjusted, s));
  }

  lemma {:induction false} OffsetSum(c: Channel, s: seq<HistItem>, m: real)
    ensures Sum(Offset(c, m), s) == Sum(Weighted(c), s) - Times(m, Sum(Adjusted, s))
  {
    if s != [] {
      var init, h := s[..|s| - 1], s[|s| - 1];
      OffsetSum(c, init, m);
      OffsetTerm(Get(h.acolor, c), m, h.adjustedWeight);
      TimesAdds(m, Sum(Adjusted, init), h.adjustedWeight);
    }
  }

  lemma {:induction false} OffsetTerm(x: real, m: real, w: real)
    ensures (x - m) * w == x * w - m * w
  {
  }

  lemma {:induction false} TimesAdds(m: real, x: real, y: real)
    ensures Times(m, x + y) == Times(m, x) + m * y
  {
  }

  lemma {:induction false} Quotient(x: real, m: real, y: real)
    requires y != 0.0
    ensures x - Times(m, y) == 0.0 <==> m == x / y
  {
  }

  /** The variance of one item: its squared offset in each channel, a quarter of it when hardly visible. */
  lemma {:induction false} VarianceOfOne(mean: Pixel, h: HistItem)
    ensures var v, w := Variance(mean, [h]), h.adjustedWeight;
      && v.a == 4.0 / 16.0 * (w * Damped(Sq(mean.a - h.acolor.a), 4.0 / 65536.0))
      && v.r == 7.0 / 16.0 * (w * Damped(Sq(mean.r - h.acolor.r), 1.0 / 65536.0))
      && v.g == 9.0 / 16.0 * (w * Damped(Sq(mean.g - h.acolor.g), 1.0 / 65536.0))
      && v.b == 5.0 / 16.0 * (w * Damped(Sq(mean.b - h.acolor.b), 1.0 / 65536.0))
  {
    SumSingle(Deviation(mean, A), h);
    SumSingle(Deviation(mean, R), h);
    SumSingle(Deviation(mean, G), h);
    SumSingle(Deviation(mean, B), h);
    hide Sum;
    DampedDiff(mean.a - h.acolor.a, 2.0 / 256.0, 4.0 / 65536.0);
    DampedDiff(mean.r - h.acolor.r, 1.0 / 256.0, 1.0 / 65536.0);
    DampedDiff(mean.g - h.acolor.g, 1.0 / 256.0, 1.0 / 65536.0);
    DampedDiff(mean.b - h.acolor.b, 1.0 / 256.0, 1.0 / 65536.0);
    hide Sq, Damped, VarianceDiff;
  }

  /** A squared offset below the threshold counts for a quarter. */
  function Damped(square: real, threshold: real): real {
    if square < threshold then square / 4.0 else square
  }

  lemma {:induction false} DampedDiff(val: real, goodEnough: real, threshold: real)
    requires goodEnough * goodEnough == threshold
    ensures VarianceDiff(val, goodEnough) == Damped(Sq(val), threshold)
  {
  }

  /** Variances of the parts of a box around one mean add up. */
  lemma {:induction false} VarianceAdds(mean: Pixel, s: seq<HistItem>, t: seq<HistItem>)
    ensures var u, v, w := Variance(mean, s), Variance(mean, t), Variance(mean, s + t);
      w == Pixel(u.a + v.a, u.r + v.r, u.g + v.g, u.b + v.b)
  {
    SumConcat(Deviation(mean, A), s, t);
    SumConcat(Deviation(mean, R), s, t);
    SumConcat(Deviation(mean, G), s, t);
    SumConcat(Deviation(mean, B), s, t);
    hide Sum;
  }

  /** No channel of the box varies more than this one. */
  ghost predicate Widest(b: Box, c: Channel) {
    forall d: Channel :: Get(b.variance, d) <= Get(b.variance, c)
  }

  /** The score is the weight of the box times its largest variance, raised by how far its error passes the limit. */
  lemma {:induction false} ScoreLaws(b: Box, maxMse: real, c: Channel)
    requires maxMse > 0.0 && Widest(b, c)
    ensures b.maxError <= maxMse ==> Score(b, maxMse) == b.sum * Get(b.variance, c)
    ensures b.maxError > maxMse ==> Score(b, maxMse) * maxMse == b.sum * Get(b.variance, c) * b.maxError
  {
    var v := b.variance;
    assert Get(v, A) <= Get(v, c) && Get(v, R) <= Get(v, c) && Get(v, G) <= Get(v, c) && Get(v, B) <= Get(v, c);
    assert Max(v.a, Max(v.r, Max(v.g, v.b))) == Get(v, c);
    DivideMultiply(b.sum * Get(v, c) * b.maxError, maxMse);
  }

  lemma {:induction false} DivideMultiply(x: real, y: real)
    requires y != 0.0
    ensures x / y * y == x
  {
  }

  /** The colour weight is the root of the distance times what the root of one plus the weight exceeds one by. */
  lemma {:induction false} ColorWeightIs(sqrt: real -> real, median: Pixel, h: HistItem, d: real, m: real)
    requires IsSquareRoot(sqrt) && 0.0 <= h.adjustedWeight && 0.0 <= d && 0.0 <= m
    requires Sq(d) == ColorDifference(median, h.acolor) && Sq(m + 1.0) == 1.0 + h.adjustedWeight
    ensures ColorWeight(sqrt, median, h) == d * m
  {
    hide ColorDifference, Sq;
    NonNegative(median, h.acolor);
    var x, y := sqrt(ColorDifference(median, h.acolor)), sqrt(1.0 + h.adjustedWeight);
    SqMonotone(x, d);
    SqMonotone(d, x);
    SqMonotone(y, m + 1.0);
    SqMonotone(m + 1.0, y);
  }

  // ----- a box with a positive score has something to split by

  lemma {:induction false} SumZero<T>(f: T -> real, s: seq<T>)
    requires forall x | x in s :: 0.0 <= f(x)
    requires Sum(f, s) == 0.0
    ensures forall x | x in s :: f(x) == 0.0
  {
    if s != [] {
      var init, last := s[..|s| - 1], s[|s| - 1];
      assert forall x | x in init :: x in s;
      assert last in s;
      SumNonNegative(f, init);
      SumZero(f, init);
      assert forall x | x in s :: x in init || x == last;
    }
  }

  lemma {:induction false} SumOfZeros<T>(f: T -> real, s: seq<T>)
    requires forall x | x in s :: f(x) == 0.0
    ensures Sum(f, s) == 0.0
  {
    if s != [] {
      assert forall x | x in s[..|s| - 1] :: x in s;
      assert s[|s| - 1] in s;
      SumOfZeros(f, s[..|s| - 1]);
    }
  }

  /** Every item that carries weight has colour m. */
  ghost predicate OneColour(m: Pixel, s: seq<HistItem>) {
    forall h | h in s :: h.acolor == m || h.adjustedWeight == 0.0
  }

  lemma {:induction false} WeightedOneColour(c: Channel, m: Pixel, s: seq<HistItem>)
    requires OneColour(m, s)
    ensures Sum(Weighted(c), s) == Get(m, c) * Sum(Adjusted, s)
  {
    hide Get, Weighted;
    if s != [] {
      var init, last := s[..|s| - 1], s[|s| - 1];
      assert forall x | x in init :: x in s;
      assert last in s;
      WeightedOneColour(c, m, init);
      WeightedTerm(c, m, last);
      Distribute(Get(m, c), Sum(Adjusted, init), last.adjustedWeight);
    }
  }

  lemma {:induction false} WeightedTerm(c: Channel, m: Pixel, h: HistItem)
    requires h.acolor == m || h.adjustedWeight == 0.0
    ensures Weighted(c)(h) == Get(m, c) * h.adjustedWeight
  {
  }

  lemma {:induction false} Distribute(x: real, y: real, z: real)
    ensures x * (y + z) == x * y + x * z
  {
  }

  lemma {:induction false} DivideBack(x: real, y: real, z: real)
    requires y != 0.0 && z == x * y
    ensures z / y == x
  {
  }

  lemma {:induction false} MeanOneColour(c: Channel, m: Pixel, s: seq<HistItem>)
    requires OneColour(m, s) && Sum(Adjusted, s) != 0.0
    ensures Mean(c, s) == Get(m, c)
  {
    hide Get, Sum, OneColour;
    WeightedOneColour(c, m, s);
    DivideBack(Get(m, c), Sum(Adjusted, s), Sum(Weighted(c), s));
  }

  lemma {:induction false} DeviationOneColour(c: Channel, m: Pixel, s: seq<HistItem>)
    requires OneColour(m, s)
    ensures Sum(Deviation(m, c), s) == 0.0
  {
    forall h | h in s
      ensures Deviation(m, c)(h) == 0.0
    {
      if h.acolor == m {
        assert VarianceDiff(0.0, GoodEnough(c)) == 0.0;
      }
    }
    SumOfZeros(Deviation(m, c), s);
  }

  /** A box whose weighted items share one colour has no variance. */
  lemma {:induction false} OneColourNoVariance(m: Pixel, s: seq<HistItem>)
    requires OneColour(m, s) && Sum(Adjusted, s) != 0.0
    ensures Average(s) == m
    ensures Variance(m, s) == Pixel(0.0, 0.0, 0.0, 0.0)
  {
    hide Mean, Deviation, OneColour;
    MeanOneColour(A, m, s);
    MeanOneColour(R, m, s);
    MeanOneColour(G, m, s);
    MeanOneColour(B, m, s);
    DeviationOneColour(A, m, s);
    DeviationOneColour(R, m, s);
    DeviationOneColour(G, m, s);
    DeviationOneColour(B, m, s);
  }

  lemma {:induction false} NoScore(b: Box, maxMse: real)
    requires maxMse > 0.0
    requires b.sum == 0.0 || b.variance == Pixel(0.0, 0.0, 0.0, 0.0)
    ensures Score(b, maxMse) == 0.0
  {
  }

  lemma {:induction false} ProductZero(x: real, y: real)
    requires x * y == 0.0
    ensures x == 0.0 || y == 0.0
  {
  }

  lemma {:induction false} RootOfOnePlus(sqrt: real -> real, w: real)
    requires IsSquareRoot(sqrt) && 0.0 <= w
    ensures 1.0 <= sqrt(1.0 + w)
    ensures sqrt(1.0 + w) == 1.0 <==> w == 0.0
  {
    hide Sq;
    assert Sq(sqrt(1.0 + w)) == 1.0 + w;
    assert Sq(1.0) == 1.0 by { SqOne(); }
    SqMonotone(1.0, sqrt(1.0 + w));
    SqMonotone(sqrt(1.0 + w), 1.0);
  }

  lemma {:induction false} SqOne()
    ensures Sq(1.0) == 1.0
  {
  }

  lemma {:induction false} ColorWeightLaws(sqrt: real -> real, median: Pixel, h: HistItem)
    requires IsSquareRoot(sqrt) && 0.0 <= h.adjustedWeight
    ensures 0.0 <= ColorWeight(sqrt, median, h)
    ensures ColorWeight(sqrt, median, h) == 0.0 <==> h.acolor == median || h.adjustedWeight == 0.0
  {
    hide ColorDifference, Sq;
    NonNegative(median, h.acolor);
    RootOfOnePlus(sqrt, h.adjustedWeight);
    var x, y := sqrt(ColorDifference(median, h.acolor)), sqrt(1.0 + h.adjustedWeight) - 1.0;
    assert 0.0 <= x * y;
    SqZero(x);
    if x * y == 0.0 {
      ProductZero(x, y);
    }
  }

  /** If the colour weights around some median all vanish, the weighted items share one colour. */
  lemma {:induction false} NoWeightOneColour(sqrt: real -> real, median: Pixel, s: seq<HistItem>)
    requires IsSquareRoot(sqrt)
    requires forall h | h in s :: 0.0 <= h.adjustedWeight && h.colorWeight == ColorWeight(sqrt, median, h)
    ensures 0.0 <= Sum(WeightOf, s)
    ensures Sum(WeightOf, s) == 0.0 ==> OneColour(median, s)
  {
    hide ColorWeight;
    forall h | h in s
      ensures 0.0 <= WeightOf(h)
      ensures WeightOf(h) == 0.0 ==> h.acolor == median || h.adjustedWeight == 0.0
    {
      ColorWeightLaws(sqrt, median, h);
    }
    SumNonNegative(WeightOf, s);
    if Sum(WeightOf, s) == 0.0 {
      SumZero(WeightOf, s);
    }
  }

  // ----- the loops that compute them

  lemma {:induction false} SumNext<T>(f: T -> real, s: seq<T>, i: nat)
    requires i < |s|
    ensures Sum(f, s[..i + 1]) == Sum(f, s[..i]) + f(s[i])
  {
    assert s[..i + 1][..i] == s[..i];
  }

  method AveragePixels(s: seq<HistItem>) returns (p: Pixel)
    ensures p == Average(s)
  {
    hide Sum, Weighted;
    var r, g, b, a, sum := 0.0, 0.0, 0.0, 0.0, 0.0;
    SumsEmpty(s);
    for i := 0 to |s|
      invariant sum == Sum(Adjusted, s[..i])
      invariant a == Sum(Weighted(A), s[..i]) && r == Sum(Weighted(R), s[..i])
      invariant g == Sum(Weighted(G), s[..i]) && b == Sum(Weighted(B), s[..i])
    {
      SumNext(Adjusted, s, i);
      SumNext(Weighted(A), s, i);
      SumNext(Weighted(R), s, i);
      SumNext(Weighted(G), s, i);
      SumNext(Weighted(B), s, i);
      WeightedTerms(s[i]);
      var px, weight := s[i].acolor, s[i].adjustedWeight;
      sum := sum + weight;
      a := a + px.a * weight;
      r := r + px.r * weight;
      g := g + px.g * weight;
      b := b + px.b * weight;
    }
    assert s[..|s|] == s;
    if sum != 0.0 {
      a, r, g, b := a / sum, r / sum, g / sum, b / sum;
    }
    p := Pixel(a, r, g, b);
  }

  lemma {:induction false} SumsEmpty(s: seq<HistItem>)
    ensures forall f: HistItem -> real :: Sum(f, s[..0]) == 0.0
  {
  }

  lemma {:induction false} WeightedTerms(h: HistItem)
    ensures Weighted(A)(h) == h.acolor.a * h.adjustedWeight && Weighted(R)(h) == h.acolor.r * h.adjustedWeight
    ensures Weighted(G)(h) == h.acolor.g * h.adjustedWeight && Weighted(B)(h) == h.acolor.b * h.adjustedWeight
  {
  }

  lemma {:induction false} DeviationTerms(mean: Pixel, h: HistItem)
    ensures Deviation(mean, A)(h) == VarianceDiff(mean.a - h.acolor.a, 2.0 / 256.0) * h.adjustedWeight
    ensures Deviation(mean, R)(h) == VarianceDiff(mean.r - h.acolor.r, 1.0 / 256.0) * h.adjustedWeight
    ensures Deviation(mean, G)(h) == VarianceDiff(mean.g - h.acolor.g, 1.0 / 256.0) * h.adjustedWeight
    ensures Deviation(mean, B)(h) == VarianceDiff(mean.b - h.acolor.b, 1.0 / 256.0) * h.adjustedWeight
  {
  }

  method BoxVariance(mean: Pixel, s: seq<HistItem>) returns (v: Pixel)
    ensures v == Variance(mean, s)
  {
    hide Sum, Deviation, VarianceDiff;
    var va, vr, vg, vb := 0.0, 0.0, 0.0, 0.0;
    SumsEmpty(s);
    for i := 0 to |s|
      invariant va == Sum(Deviation(mean, A), s[..i]) && vr == Sum(Deviation(mean, R), s[..i])
      invariant vg == Sum(Deviation(mean, G), s[..i]) && vb == Sum(Deviation(mean, B), s[..i])
    {
      SumNext(Deviation(mean, A), s, i);
      SumNext(Deviation(mean, R), s, i);
      SumNext(Deviation(mean, G), s, i);
      SumNext(Deviation(mean, B), s, i);
      DeviationTerms(mean, s[i]);
      var px, weight := s[i].acolor, s[i].adjustedWeight;
      va := va + VarianceDiff(mean.a - px.a, 2.0 / 256.0) * weight;
      vr := vr + VarianceDiff(mean.r - px.r, 1.0 / 256.0) * weight;
      vg := vg + VarianceDiff(mean.g - px.g, 1.0 / 256.0) * weight;
      vb := vb + VarianceDiff(mean.b - px.b, 1.0 / 256.0) * weight;
    }
    assert s[..|s|] == s;
    v := Pixel(va * (4.0 / 16.0), vr * (7.0 / 16.0), vg * (9.0 / 16.0), vb * (5.0 / 16.0));
  }

  method BoxMaxError(mean: Pixel, s: seq<HistItem>) returns (maxError: real)
    ensures maxError == MaxError(mean, s)
  {
    hide ColorDifference;
    maxError := 0.0;
    for i := 0 to |s|
      invariant maxError == MaxError(mean, s[..i])
    {
      assert s[..i + 1][..i] == s[..i];
      var diff := ColorDifference(mean, s[i].acolor);
      if diff > maxError {
        maxError := diff;
      }
    }
    assert s[..|s|] == s;
  }

  /** The recursion in `MaxError` is the largest distance from the mean. */
  lemma {:induction false} MaxErrorIsMaximum(mean: Pixel, s: seq<HistItem>)
    ensures forall h | h in s :: ColorDifference(mean, h.acolor) <= MaxError(mean, s)
    ensures s != [] ==> exists h | h in s :: ColorDifference(mean, h.acolor) == MaxError(mean, s)
  {
    hide ColorDifference;
    if s != [] {
      var init, last := s[..|s| - 1], s[|s| - 1];
      MaxErrorIsMaximum(mean, init);
      assert last in s && forall h | h in s :: h in init || h == last;
      NonNegative(mean, last.acolor);
      if MaxError(mean, s) != ColorDifference(mean, last.acolor) {
        if init != [] {
          var h :| h in init && ColorDifference(mean, h.acolor) == MaxError(mean, init);
          assert h in s;
        }
      }
    }
  }

  method ComputeBoxError(avg: Pixel, s: seq<HistItem>) returns (totalError: real)
    ensures totalError == BoxError(avg, s)
  {
    hide Sum, ErrorTerm, ColorDifference;
    totalError := 0.0;
    SumsEmpty(s);
    for i := 0 to |s|
      invariant totalError == Sum(ErrorTerm(avg), s[..i])
    {
      SumNext(ErrorTerm(avg), s, i);
      ErrorTermIs(avg, s[i]);
      totalError := totalError + ColorDifference(avg, s[i].acolor) * s[i].perceptualWeight;
    }
    assert s[..|s|] == s;
  }

  lemma {:induction false} ErrorTermIs(avg: Pixel, h: HistItem)
    ensures ErrorTerm(avg)(h) == ColorDifference(avg, h.acolor) * h.perceptualWeight
  {
    hide ColorDifference;
  }

  /** With non-negative weights a box error is never taken for the "not computed" mark. */
  lemma {:induction false} BoxErrorNonNegative(avg: Pixel, s: seq<HistItem>)
    requires forall h | h in s :: 0.0 <= h.perceptualWeight
    ensures 0.0 <= BoxError(avg, s)
  {
    hide ColorDifference;
    forall h | h in s
      ensures 0.0 <= ErrorTerm(avg)(h)
    {
      NonNegative(avg, h.acolor);
    }
    SumNonNegative(ErrorTerm(avg), s);
  }
}
