/**
 The median-cut loop of `mediancut.c`: boxes over one histogram array that is reordered
 in place, split one at a time at the point where half of the colour weight is reached.
 */
module MedianCut {
  import opened Basics
  import opened ColorMetric
  import opened Permutations
  import opened HistSort
  import opened BoxStats

  // ----- the part of an item that sorting never changes

  datatype Core = Core(acolor: Pixel, adjustedWeight: real, perceptualWeight: real)

  function CoreOf(h: HistItem): Core {
    Core(h.acolor, h.adjustedWeight, h.perceptualWeight)
  }

  /** t is s with the items of [lo, hi) reordered and their sort key and colour weight rewritten. */
  ghost predicate Reworked(s: seq<HistItem>, t: seq<HistItem>, lo: nat, hi: nat) {
    && lo <= hi <= |s| == |t|
    && (forall k | 0 <= k < lo || hi <= k < |s| :: s[k] == t[k])
    && multiset(Map(CoreOf, s[lo..hi])) == multiset(Map(CoreOf, t[lo..hi]))
  }

  lemma {:induction false} ReworkedShuffle(s: seq<HistItem>, t: seq<HistItem>, lo: nat, hi: nat)
    requires Shuffled(s, t, lo, hi)
    ensures Reworked(s, t, lo, hi)
  {
    MapPermute(CoreOf, s[lo..hi], t[lo..hi]);
  }

  lemma {:induction false} ReworkedInPlace(s: seq<HistItem>, t: seq<HistItem>, lo: nat, hi: nat)
    requires lo <= hi <= |s| == |t|
    requires forall k | 0 <= k < lo || hi <= k < |s| :: s[k] == t[k]
    requires forall k | lo <= k < hi :: CoreOf(s[k]) == CoreOf(t[k])
    ensures Reworked(s, t, lo, hi)
  {
    assert Map(CoreOf, s[lo..hi]) == Map(CoreOf, t[lo..hi]);
  }

  lemma {:induction false} ReworkedTrans(s: seq<HistItem>, t: seq<HistItem>, u: seq<HistItem>, lo: nat, hi: nat)
    requires Reworked(s, t, lo, hi) && Reworked(t, u, lo, hi)
    ensures Reworked(s, u, lo, hi)
  {
  }

  /** Reworking a stretch permutes the cores of the whole histogram. */
  lemma {:induction false} ReworkedWhole(s: seq<HistItem>, t: seq<HistItem>, lo: nat, hi: nat)
    requires Reworked(s, t, lo, hi)
    ensures multiset(Map(CoreOf, s)) == multiset(Map(CoreOf, t))
  {
    assert s == s[..lo] + s[lo..hi] + s[hi..];
    assert t == s[..lo] + t[lo..hi] + s[hi..];
    MapConcat(CoreOf, s[..lo] + s[lo..hi], s[hi..]);
    MapConcat(CoreOf, s[..lo], s[lo..hi]);
    MapConcat(CoreOf, s[..lo] + t[lo..hi], s[hi..]);
    MapConcat(CoreOf, s[..lo], t[lo..hi]);
  }

  /** Items with the same core as t's can be found among items whose cores are a reordering of t's. */
  lemma {:induction false} CoreOrigin(s: seq<HistItem>, t: seq<HistItem>, h: HistItem) returns (g: HistItem)
    requires multiset(Map(CoreOf, s)) == multiset(Map(CoreOf, t)) && h in s
    ensures g in t && CoreOf(g) == CoreOf(h)
  {
    SameElements(Map(CoreOf, s), Map(CoreOf, t));
    var i :| 0 <= i < |s| && s[i] == h;
    assert Map(CoreOf, s)[i] in Map(CoreOf, t);
    var j :| 0 <= j < |t| && Map(CoreOf, t)[j] == CoreOf(h);
    g := t[j];
  }

  function CoreAdjusted(c: Core): real { c.adjustedWeight }

  function CorePerceptual(c: Core): real { c.perceptualWeight }

  lemma {:induction false} SumCores(s: seq<HistItem>)
    ensures Sum(Adjusted, s) == Sum(CoreAdjusted, Map(CoreOf, s))
    ensures Sum(Perceptual, s) == Sum(CorePerceptual, Map(CoreOf, s))
  {
    if s != [] {
      assert Map(CoreOf, s)[..|s| - 1] == Map(CoreOf, s[..|s| - 1]);
      SumCores(s[..|s| - 1]);
    }
  }

  lemma {:induction false} SumReworked(s: seq<HistItem>, t: seq<HistItem>)
    requires multiset(Map(CoreOf, s)) == multiset(Map(CoreOf, t))
    ensures Sum(Adjusted, s) == Sum(Adjusted, t) && Sum(Perceptual, s) == Sum(Perceptual, t)
  {
    SumCores(s);
    SumCores(t);
    SumPermute(CoreAdjusted, Map(CoreOf, s), Map(CoreOf, t));
    SumPermute(CorePerceptual, Map(CoreOf, s), Map(CoreOf, t));
  }

  ghost predicate NonNegativeWeights(s: seq<HistItem>) {
    forall h | h in s :: 0.0 <= h.adjustedWeight && 0.0 <= h.perceptualWeight
  }

  lemma {:induction false} WeightsReworked(s: seq<HistItem>, t: seq<HistItem>)
    requires NonNegativeWeights(s) && multiset(Map(CoreOf, s)) == multiset(Map(CoreOf, t))
    ensures NonNegativeWeights(t)
  {
    forall h | h in t
      ensures 0.0 <= h.adjustedWeight && 0.0 <= h.perceptualWeight
    {
      var g := CoreOrigin(t, s, h);
    }
  }

  lemma {:induction false} OneColourReworked(m: Pixel, s: seq<HistItem>, t: seq<HistItem>)
    requires OneColour(m, t) && multiset(Map(CoreOf, s)) == multiset(Map(CoreOf, t))
    ensures OneColour(m, s)
  {
    forall h | h in s
      ensures h.acolor == m || h.adjustedWeight == 0.0
    {
      var g := CoreOrigin(s, t, h);
    }
  }

  // ----- boxes

  ghost function Range(b: Box, s: seq<HistItem>): seq<HistItem>
    requires b.ind + b.colors <= |s|
  {
    s[b.ind..b.ind + b.colors]
  }

  /** The statistics stored in a box are those of its range; a computed error is never stale. */
  ghost predicate BoxOf(b: Box, s: seq<HistItem>) {
    && b.ind + b.colors <= |s|
    && b.sum == Sum(Adjusted, Range(b, s))
    && b.color == Average(Range(b, s))
    && b.variance == Variance(b.color, Range(b, s))
    && b.maxError == MaxError(b.color, Range(b, s))
    && (b.totalError >= 0.0 ==> b.totalError == BoxError(b.color, Range(b, s)))
  }

  lemma {:induction false} BoxOfSameRange(b: Box, s: seq<HistItem>, t: seq<HistItem>)
    requires BoxOf(b, s) && |s| == |t| && Range(b, s) == Range(b, t)
    ensures BoxOf(b, t)
  {
  }

  method BoxInit(a: array<HistItem>, ind: nat, colors: nat, sum: real) returns (b: Box)
    requires ind + colors <= a.Length
    requires sum == Sum(Adjusted, a[ind..ind + colors])
    ensures b.ind == ind && b.colors == colors && b.totalError < 0.0 && BoxOf(b, a[..])
  {
    hide Sum, Average, Variance, MaxError, BoxError;
    var items := a[ind..ind + colors];
    var color := AveragePixels(items);
    var variance := BoxVariance(color, items);
    var maxError := BoxMaxError(color, items);
    b := Box(color, variance, sum, -1.0, maxError, ind, colors);
    assert Range(b, a[..]) == items;
  }

  lemma {:induction false} RangeWeights(b: Box, s: seq<HistItem>, t: seq<HistItem>)
    requires b.ind + b.colors <= |s| && NonNegativeWeights(s) && Reworked(s, t, b.ind, b.ind + b.colors)
    ensures NonNegativeWeights(Range(b, s)) && NonNegativeWeights(Range(b, t))
  {
    assert forall h | h in Range(b, s) :: h in s;
    WeightsReworked(Range(b, s), Range(b, t));
  }

  /** A box whose weighted items share one colour has no score. */
  lemma {:induction false} OneColourNoScore(b: Box, maxMse: real, median: Pixel, s: seq<HistItem>)
    requires maxMse > 0.0 && BoxOf(b, s) && OneColour(median, Range(b, s))
    ensures Score(b, maxMse) == 0.0
  {
    hide Score, Sum, Average, Variance, MaxError, BoxError, OneColour;
    if b.sum != 0.0 {
      OneColourNoVariance(median, Range(b, s));
    }
    NoScore(b, maxMse);
  }

  /** A box worth splitting always leaves positive colour weight, whatever median is chosen. */
  lemma {:induction false} SplittableHasWeight(sqrt: real -> real, b: Box, maxMse: real, median: Pixel,
                                               s: seq<HistItem>, t: seq<HistItem>)
    requires IsSquareRoot(sqrt) && maxMse > 0.0 && BoxOf(b, s) && Score(b, maxMse) > 0.0
    requires NonNegativeWeights(s) && Reworked(s, t, b.ind, b.ind + b.colors)
    requires forall h | h in Range(b, t) :: h.colorWeight == ColorWeight(sqrt, median, h)
    ensures 0.0 < Weight(t, b.ind, b.ind + b.colors)
  {
    hide IsSquareRoot, ColorWeight, Score, Sum, Average, Variance, MaxError, BoxError, OneColour;
    RangeWeights(b, s, t);
    NoWeightOneColour(sqrt, median, Range(b, t));
    if Sum(WeightOf, Range(b, t)) == 0.0 {
      OneColourReworked(median, Range(b, s), Range(b, t));
      OneColourNoScore(b, maxMse, median, s);
    }
  }

  // ----- preparing a box for the split

  /** C conversion of a real to an unsigned 32-bit integer: truncated toward zero. */
  function ToUint(x: real): nat {
    var t := if x < 0.0 then -((-x).Floor) else x.Floor;
    t % 0x1_0000_0000
  }

  /** Bitwise or. */
  function Or(x: nat, y: nat): nat {
    if x == 0 && y == 0 then 0
    else 2 * Or(x / 2, y / 2) + if x % 2 == 1 || y % 2 == 1 then 1 else 0
  }

  /** Sort key: the channel of largest variance on top, a blend of the others below and partly over it. */
  function SortKey(px: Pixel, order: seq<Channel>): nat
    requires |order| == 4
  {
    Or(ToUint(Get(px, order[0]) * 65535.0) * 0x1_0000 % 0x1_0000_0000,
       ToUint((Get(px, order[2]) + Get(px, order[1]) / 2.0 + Get(px, order[3]) / 4.0) * 65535.0))
  }

  /** All channels lie between 0 and 1, as those of premultiplied colours do. */
  predicate InUnit(px: Pixel) {
    0.0 <= px.a <= 1.0 && 0.0 <= px.r <= 1.0 && 0.0 <= px.g <= 1.0 && 0.0 <= px.b <= 1.0
  }

  lemma {:induction false} UnitChannel(px: Pixel, c: Channel)
    requires InUnit(px)
    ensures 0.0 <= Get(px, c) <= 1.0
  {
  }

  lemma {:induction false} OrBounds(x: nat, y: nat)
    ensures x <= Or(x, y) <= x + y
  {
    if x != 0 || y != 0 {
      OrBounds(x / 2, y / 2);
    }
  }

  lemma {:induction false} ToUintFloor(x: real, limit: nat)
    requires 0.0 <= x < limit as real && limit <= 0x1_0000_0000
    ensures ToUint(x) == x.Floor < limit
  {
  }

  /** The blend of the other channels stays below 2^17, so it disturbs only the lowest bit of the upper half. */
  lemma {:induction false} SortKeyBounds(px: Pixel, order: seq<Channel>)
    requires |order| == 4 && InUnit(px)
    ensures var top := (Get(px, order[0]) * 65535.0).Floor;
      0 <= top && top * 0x1_0000 <= SortKey(px, order) < (top + 2) * 0x1_0000
  {
    hide Or, Get, InUnit, ToUint;
    UnitChannel(px, order[0]);
    UnitChannel(px, order[1]);
    UnitChannel(px, order[2]);
    UnitChannel(px, order[3]);
    var x, y := Get(px, order[0]) * 65535.0,
      (Get(px, order[2]) + Get(px, order[1]) / 2.0 + Get(px, order[3]) / 4.0) * 65535.0;
    ToUintFloor(x, 0x1_0000);
    ToUintFloor(y, 0x2_0000);
    OrBounds(ToUint(x) * 0x1_0000 % 0x1_0000_0000, ToUint(y));
  }

  const KEY_STEP := 2.0 / 65535.0

  /** A colour whose first channel is larger by a visible step sorts strictly above. */
  lemma {:induction false} SortKeyOrders(p: Pixel, q: Pixel, order: seq<Channel>)
    requires |order| == 4 && InUnit(p) && InUnit(q)
    requires Get(p, order[0]) >= Get(q, order[0]) + KEY_STEP
    ensures SortKey(p, order) > SortKey(q, order)
  {
    SortKeyBounds(p, order);
    SortKeyBounds(q, order);
    hide SortKey, InUnit;
    var x, y := Get(p, order[0]) * 65535.0, Get(q, order[0]) * 65535.0;
    assert x >= y + 2.0;
    assert x.Floor >= y.Floor + 2;
  }

  /** Sorting key that puts the channel of largest variance first. */
  function LessVariance(variance: Pixel): Channel -> real {
    (c: Channel) => -Get(variance, c)
  }

  method SetSortValues(a: array<HistItem>, ind: nat, colors: nat, order: seq<Channel>)
    requires ind + colors <= a.Length && |order| == 4
    modifies a
    ensures forall k | 0 <= k < ind || ind + colors <= k < a.Length :: a[k] == old(a[k])
    ensures forall k | ind <= k < ind + colors :: a[k] == old(a[k]).(sortValue := SortKey(old(a[k]).acolor, order))
  {
    hide SortKey;
    for i := 0 to colors
      invariant forall k | 0 <= k < ind || ind + i <= k < a.Length :: a[k] == old(a[k])
      invariant forall k | ind <= k < ind + i :: a[k] == old(a[k]).(sortValue := SortKey(old(a[k]).acolor, order))
    {
      a[ind + i] := a[ind + i].(sortValue := SortKey(a[ind + i].acolor, order));
    }
  }

  /** The colour at the median position, or the mean of the two middle items of an even box. */
  ghost function MedianOf(s: seq<HistItem>): Pixel
    requires s != []
  {
    var m := (|s| - 1) / 2;
    if |s| % 2 == 1 then s[m].acolor else Average(s[m..m + 2])
  }

  method GetMedian(a: array<HistItem>, ind: nat, colors: nat) returns (median: Pixel)
    requires 1 <= colors && ind + colors <= a.Length
    modifies a
    ensures Shuffled(old(a[..]), a[..], ind, ind + colors)
    ensures Above(a[..], ind, ind + (colors - 1) / 2, ind + colors)
    ensures median == MedianOf(a[ind..ind + colors])
    ensures colors % 2 == 1 ==> median == a[ind + colors / 2].acolor
    ensures colors % 2 == 0 ==> median == Average([a[ind + colors / 2 - 1], a[ind + colors / 2]])
  {
    hide Shuffled, Above, Average;
    var medianStart := (colors - 1) / 2;
    HistItemSortRange(a, ind, colors, medianStart);
    if colors % 2 == 1 {
      median := a[ind + medianStart].acolor;
    } else {
      assert a[ind..ind + colors][medianStart..medianStart + 2] == a[ind + medianStart..ind + medianStart + 2];
      median := AveragePixels(a[ind + medianStart..ind + medianStart + 2]);
      assert a[ind + medianStart..ind + medianStart + 2] == [a[ind + colors / 2 - 1], a[ind + colors / 2]];
    }
  }

  method SetColorWeights(sqrt: real -> real, a: array<HistItem>, ind: nat, end: nat, median: Pixel)
    returns (totalvar: real)
    requires ind <= end <= a.Length
    modifies a
    ensures forall k | 0 <= k < ind || end <= k < a.Length :: a[k] == old(a[k])
    ensures forall k | ind <= k < end :: a[k] == old(a[k]).(colorWeight := ColorWeight(sqrt, median, old(a[k])))
    ensures totalvar == Weight(a[..], ind, end)
  {
    hide ColorWeight, Weight;
    totalvar := 0.0;
    WeightEmpty(a[..], ind);
    for j := ind to end
      invariant forall k | 0 <= k < ind || j <= k < a.Length :: a[k] == old(a[k])
      invariant forall k | ind <= k < j :: a[k] == old(a[k]).(colorWeight := ColorWeight(sqrt, median, old(a[k])))
      invariant totalvar == Weight(a[..], ind, j)
    {
      ghost var before := a[..];
      var w := ColorWeight(sqrt, median, a[j]);
      a[j] := a[j].(colorWeight := w);
      WeightSamePrefix(before, a[..], ind, j);
      WeightNext(a[..], ind, j);
      totalvar := totalvar + w;
    }
  }

  lemma {:induction false} WeightSamePrefix(s: seq<HistItem>, t: seq<HistItem>, i: nat, j: nat)
    requires i <= j <= |s| == |t| && forall k | i <= k < j :: s[k] == t[k]
    ensures Weight(s, i, j) == Weight(t, i, j)
  {
    assert s[i..j] == t[i..j];
  }

  /** Every item of [lo, hi) carries the colour weight it has around the median. */
  ghost predicate WeighedBy(sqrt: real -> real, median: Pixel, s: seq<HistItem>, lo: nat, hi: nat) {
    forall k | 0 <= lo <= k < hi <= |s| :: s[k].colorWeight == ColorWeight(sqrt, median, s[k])
  }

  lemma {:induction false} WeighedShuffled(sqrt: real -> real, median: Pixel, s: seq<HistItem>, t: seq<HistItem>,
                                           lo: nat, hi: nat)
    requires WeighedBy(sqrt, median, s, lo, hi) && Shuffled(s, t, lo, hi)
    ensures WeighedBy(sqrt, median, t, lo, hi)
  {
    hide ColorWeight;
    forall k | lo <= k < hi
      ensures t[k].colorWeight == ColorWeight(sqrt, median, t[k])
    {
      var i := ShuffledOrigin(s, t, lo, hi, k);
    }
  }

  lemma {:induction false} WeighedInPlace(sqrt: real -> real, median: Pixel, s: seq<HistItem>, t: seq<HistItem>,
                                          lo: nat, hi: nat)
    requires lo <= hi <= |s| == |t|
    requires forall k | lo <= k < hi :: t[k] == s[k].(colorWeight := ColorWeight(sqrt, median, s[k]))
    ensures WeighedBy(sqrt, median, t, lo, hi)
  {
    hide ColorWeight;
    forall k | lo <= k < hi
      ensures t[k].colorWeight == ColorWeight(sqrt, median, t[k])
    {
      ColorWeightOfCore(sqrt, median, s[k], t[k]);
    }
  }

  lemma {:induction false} ColorWeightOfCore(sqrt: real -> real, median: Pixel, g: HistItem, h: HistItem)
    requires CoreOf(g) == CoreOf(h)
    ensures ColorWeight(sqrt, median, g) == ColorWeight(sqrt, median, h)
  {
  }

  /** Every item of [lo, hi) carries the sort key it has in this order of channels. */
  ghost predicate KeyedBy(order: seq<Channel>, s: seq<HistItem>, lo: nat, hi: nat)
    requires |order| == 4
  {
    forall k | 0 <= lo <= k < hi <= |s| :: s[k].sortValue == SortKey(s[k].acolor, order)
  }

  lemma {:induction false} KeyedShuffled(order: seq<Channel>, s: seq<HistItem>, t: seq<HistItem>, lo: nat, hi: nat)
    requires |order| == 4 && KeyedBy(order, s, lo, hi) && Shuffled(s, t, lo, hi)
    ensures KeyedBy(order, t, lo, hi)
  {
    hide SortKey;
    forall k | lo <= k < hi
      ensures t[k].sortValue == SortKey(t[k].acolor, order)
    {
      var i := ShuffledOrigin(s, t, lo, hi, k);
    }
  }

  /** The order of channels from the largest variance of a box to the smallest. */
  ghost predicate ByVariance(b: Box, order: seq<Channel>) {
    SortOf(LessVariance(b.variance), [A, R, G, B], order)
  }

  lemma {:induction false} WidestFirst(b: Box, order: seq<Channel>)
    requires |order| == 4 && ByVariance(b, order)
    ensures Widest(b, order[0])
  {
    var all := [A, R, G, B];
    assert all[0] == A && all[1] == R && all[2] == G && all[3] == B;
    SameElements(all, order);
    forall d: Channel
      ensures Get(b.variance, d) <= Get(b.variance, order[0])
    {
      assert d.A? || d.R? || d.G? || d.B?;
      assert d in all;
      var k :| 0 <= k < |order| && order[k] == d;
      assert LessVariance(b.variance)(order[0]) <= LessVariance(b.variance)(order[k]);
    }
  }

  /** No item before the cut is lower in this channel than one after it by a visible step. */
  ghost predicate CutAlong(c: Channel, s: seq<HistItem>, lo: nat, cut: nat, hi: nat) {
    forall i, j | 0 <= lo <= i < cut <= j < hi <= |s| && InUnit(s[i].acolor) && InUnit(s[j].acolor) ::
      Get(s[j].acolor, c) < Get(s[i].acolor, c) + KEY_STEP
  }

  /** The cut runs along a channel in which the box varies most. */
  ghost predicate CutAlongWidest(b: Box, s: seq<HistItem>, lo: nat, cut: nat, hi: nat) {
    exists c: Channel :: Widest(b, c) && CutAlong(c, s, lo, cut, hi)
  }

  lemma {:induction false} CutsAlong(order: seq<Channel>, s: seq<HistItem>, lo: nat, cut: nat, hi: nat)
    requires |order| == 4 && KeyedBy(order, s, lo, hi) && Above(s, lo, cut, hi)
    ensures CutAlong(order[0], s, lo, cut, hi)
  {
    hide SortKey, InUnit, Get;
    forall i, j | 0 <= lo <= i < cut <= j < hi <= |s| && InUnit(s[i].acolor) && InUnit(s[j].acolor)
      ensures Get(s[j].acolor, order[0]) < Get(s[i].acolor, order[0]) + KEY_STEP
    {
      assert s[i].sortValue >= s[j].sortValue;
      if Get(s[j].acolor, order[0]) >= Get(s[i].acolor, order[0]) + KEY_STEP {
        SortKeyOrders(s[j].acolor, s[i].acolor, order);
      }
    }
  }

  /** The colour is taken from the middle of a stretch whose first half sorts at or above the second. */
  ghost predicate AtMedian(median: Pixel, s: seq<HistItem>, lo: nat, hi: nat) {
    lo < hi <= |s| && Above(s, lo, lo + (hi - lo - 1) / 2, hi) && median == MedianOf(s[lo..hi])
  }

  /** Setting colour weights changes no key and no median. */
  lemma {:induction false} WeighingKeeps(order: seq<Channel>, median: Pixel, s: seq<HistItem>, t: seq<HistItem>,
                                         lo: nat, hi: nat)
    requires |order| == 4 && |s| == |t| && KeyedBy(order, s, lo, hi) && AtMedian(median, s, lo, hi)
    requires forall k | lo <= k < hi :: t[k] == s[k].(colorWeight := t[k].colorWeight)
    ensures KeyedBy(order, t, lo, hi) && AtMedian(median, t, lo, hi)
  {
    hide SortKey, MedianOf;
    var u, v := s[lo..hi], t[lo..hi];
    forall k | 0 <= k < |u|
      ensures v[k] == u[k].(colorWeight := v[k].colorWeight)
    {
      assert u[k] == s[lo + k] && v[k] == t[lo + k];
    }
    MedianSame(u, v);
  }

  lemma {:induction false} MedianSame(s: seq<HistItem>, t: seq<HistItem>)
    requires |s| == |t| > 0 && forall k | 0 <= k < |s| :: t[k] == s[k].(colorWeight := t[k].colorWeight)
    ensures MedianOf(s) == MedianOf(t)
  {
    hide Average;
    var m := (|s| - 1) / 2;
    if |s| % 2 == 0 {
      AverageCongruent(s[m..m + 2], t[m..m + 2]);
    }
  }

  lemma {:induction false} AverageCongruent(s: seq<HistItem>, t: seq<HistItem>)
    requires |s| == |t| && forall k | 0 <= k < |s| :: t[k] == s[k].(colorWeight := t[k].colorWeight)
    ensures Average(s) == Average(t)
  {
    hide Sum;
    SumCongruent(Adjusted, s, t);
    SumCongruent(Weighted(A), s, t);
    SumCongruent(Weighted(R), s, t);
    SumCongruent(Weighted(G), s, t);
    SumCongruent(Weighted(B), s, t);
  }

  method PrepareSort(sqrt: real -> real, a: array<HistItem>, b: Box)
    returns (halfvar: real, ghost median: Pixel, ghost order: seq<Channel>)
    requires 1 <= b.colors && b.ind + b.colors <= a.Length
    modifies a
    ensures Reworked(old(a[..]), a[..], b.ind, b.ind + b.colors)
    ensures |order| == 4 && ByVariance(b, order) && KeyedBy(order, a[..], b.ind, b.ind + b.colors)
    ensures AtMedian(median, a[..], b.ind, b.ind + b.colors)
    ensures WeighedBy(sqrt, median, a[..], b.ind, b.ind + b.colors)
    ensures halfvar == Weight(a[..], b.ind, b.ind + b.colors) / 2.0
  {
    hide ColorWeight, Weight, Reworked, WeighedBy, Shuffled, Above, MedianOf, Average, SortKey, SortOf;
    var channels := [A, R, G, B];
    ghost var _ := SortExists(LessVariance(b.variance), channels);
    var chosen: seq<Channel> :| SortOf(LessVariance(b.variance), channels, chosen);
    SortLength(LessVariance(b.variance), channels, chosen);
    var lo, hi := b.ind, b.ind + b.colors;
    ghost var s0 := a[..];
    SetSortValues(a, lo, b.colors, chosen);
    ghost var s1 := a[..];
    ReworkedInPlace(s0, s1, lo, hi);
    var m := GetMedian(a, lo, b.colors);
    ghost var s2 := a[..];
    KeyedShuffled(chosen, s1, s2, lo, hi);
    ReworkedShuffle(s1, s2, lo, hi);
    ReworkedTrans(s0, s1, s2, lo, hi);
    var totalvar := SetColorWeights(sqrt, a, lo, hi, m);
    ghost var s3 := a[..];
    WeighingKeeps(chosen, m, s2, s3, lo, hi);
    ReworkedInPlace(s2, s3, lo, hi);
    ReworkedTrans(s0, s2, s3, lo, hi);
    WeighedInPlace(sqrt, m, s2, s3, lo, hi);
    median, order := m, chosen;
    halfvar := totalvar / 2.0;
  }

  /**
   A split position: the left part sorts above the right one and is the shortest to pass half the weight, up to the
   last item.
   */
  ghost predicate BalancedCut(s: seq<HistItem>, lo: nat, cut: nat, hi: nat) {
    && lo < cut < hi <= |s|
    && Above(s, lo, cut, hi)
    && Weight(s, lo, cut - 1) <= Weight(s, lo, hi) / 2.0
    && (cut < hi - 1 ==> Weight(s, lo, hi) / 2.0 < Weight(s, lo, cut))
  }

  lemma {:induction false} CrossingIsCut(s: seq<HistItem>, lo: nat, p: nat, hi: nat, lowervar: real)
    requires lo + 2 <= hi <= |s| && p < hi
    requires Crossing(s, lo, p, hi, 0.0, lowervar, Weight(s, lo, hi) / 2.0)
    requires forall k | lo <= k < hi :: 0.0 <= s[k].colorWeight
    ensures BalancedCut(s, lo, if p + 1 < hi then p + 1 else hi - 1, hi)
  {
    if p + 1 == hi {
      WeightNext(s, lo, p - 1);
    }
  }

  /** Where to split a box: always strictly inside it, and never read past its end. */
  method FindBreak(sqrt: real -> real, a: array<HistItem>, b: Box, ghost maxMse: real)
    returns (breakAt: nat, ghost median: Pixel, ghost order: seq<Channel>)
    requires IsSquareRoot(sqrt) && maxMse > 0.0
    requires NonNegativeWeights(a[..]) && BoxOf(b, a[..])
    requires 2 <= b.colors && Score(b, maxMse) > 0.0
    modifies a
    ensures Reworked(old(a[..]), a[..], b.ind, b.ind + b.colors)
    ensures |order| == 4 && ByVariance(b, order) && KeyedBy(order, a[..], b.ind, b.ind + b.colors)
    ensures WeighedBy(sqrt, median, a[..], b.ind, b.ind + b.colors)
    ensures 1 <= breakAt < b.colors
    ensures BalancedCut(a[..], b.ind, b.ind + breakAt, b.ind + b.colors)
    ensures Widest(b, order[0]) && CutAlong(order[0], a[..], b.ind, b.ind + breakAt, b.ind + b.colors)
  {
    hide ColorWeight, Weight, Reworked, WeighedBy, Shuffled, Above, BoxOf, NonNegativeWeights, Score, Crossing,
      BalancedCut, ByVariance, KeyedBy, AtMedian, Widest, CutAlong;
    ghost var s0 := a[..];
    var lo, hi := b.ind, b.ind + b.colors;
    BoxInside(b, s0);
    var halfvar;
    halfvar, median, order := PrepareSort(sqrt, a, b);
    ghost var s1 := a[..];
    PreparedWeight(sqrt, b, maxMse, median, s0, s1);
    var breakP, lowervar := HistItemSortHalfvar(a, lo, b.colors, 0.0, halfvar);
    ghost var s2 := a[..];
    SelectedCut(sqrt, b, median, s0, s1, s2, halfvar, breakP, lowervar);
    KeyedShuffled(order, s1, s2, lo, hi);
    breakAt := if b.colors - 1 < breakP.value - lo + 1 then b.colors - 1 else breakP.value - lo + 1;
    WidestFirst(b, order);
    CutIsAbove(a[..], lo, lo + breakAt, hi);
    CutsAlong(order, a[..], lo, lo + breakAt, hi);
  }

  lemma {:induction false} CutIsAbove(s: seq<HistItem>, lo: nat, cut: nat, hi: nat)
    requires BalancedCut(s, lo, cut, hi)
    ensures Above(s, lo, cut, hi)
  {
  }

  lemma {:induction false} BoxInside(b: Box, s: seq<HistItem>)
    requires BoxOf(b, s)
    ensures b.ind + b.colors <= |s|
  {
  }

  lemma {:induction false} SortLength<T>(key: T -> real, s: seq<T>, t: seq<T>)
    requires SortOf(key, s, t)
    ensures |t| == |s|
  {
  }

  lemma {:induction false} PreparedWeight(sqrt: real -> real, b: Box, maxMse: real, median: Pixel, s: seq<HistItem>,
                                          t: seq<HistItem>)
    requires IsSquareRoot(sqrt) && maxMse > 0.0 && BoxOf(b, s) && Score(b, maxMse) > 0.0
    requires NonNegativeWeights(s) && Reworked(s, t, b.ind, b.ind + b.colors)
    requires WeighedBy(sqrt, median, t, b.ind, b.ind + b.colors)
    ensures 0.0 < Weight(t, b.ind, b.ind + b.colors)
  {
    hide ColorWeight, Weight, BoxOf, NonNegativeWeights, Score;
    BoxInside(b, s);
    SplittableHasWeight(sqrt, b, maxMse, median, s, t);
  }

  lemma {:induction false} ItemWeights(sqrt: real -> real, median: Pixel, s: seq<HistItem>, t: seq<HistItem>,
                                       lo: nat, hi: nat)
    requires IsSquareRoot(sqrt) && NonNegativeWeights(s) && Reworked(s, t, lo, hi)
    requires WeighedBy(sqrt, median, t, lo, hi)
    ensures forall k | lo <= k < hi :: 0.0 <= t[k].colorWeight
  {
    ReworkedWhole(s, t, lo, hi);
    WeightsReworked(s, t);
    hide ColorWeight;
    forall k | lo <= k < hi
      ensures 0.0 <= t[k].colorWeight
    {
      assert t[k] in t;
      ColorWeightLaws(sqrt, median, t[k]);
    }
  }

  lemma {:induction false} SelectedCut(sqrt: real -> real, b: Box, median: Pixel, s0: seq<HistItem>,
                                       s1: seq<HistItem>, s2: seq<HistItem>, halfvar: real, res: Option<nat>,
                                       lowervar: real)
    requires IsSquareRoot(sqrt) && 2 <= b.colors
    requires NonNegativeWeights(s0) && Reworked(s0, s1, b.ind, b.ind + b.colors)
    requires WeighedBy(sqrt, median, s1, b.ind, b.ind + b.colors)
    requires halfvar == Weight(s1, b.ind, b.ind + b.colors) / 2.0 && 0.0 < halfvar
    requires Selected(s1, s2, b.ind, b.ind + b.colors, 0.0, halfvar, res, lowervar)
    ensures Reworked(s0, s2, b.ind, b.ind + b.colors) && WeighedBy(sqrt, median, s2, b.ind, b.ind + b.colors)
    ensures res.Some? && b.ind <= res.value < b.ind + b.colors
    ensures var p, hi := res.value, b.ind + b.colors;
      BalancedCut(s2, b.ind, if p + 1 < hi then p + 1 else hi - 1, hi)
  {
    hide ColorWeight, Weight, WeighedBy, NonNegativeWeights, Reworked, BalancedCut;
    var lo, hi := b.ind, b.ind + b.colors;
    WeightShuffled(s1, s2, lo, hi, lo, hi);
    ReworkedShuffle(s1, s2, lo, hi);
    ReworkedTrans(s0, s1, s2, lo, hi);
    WeighedShuffled(sqrt, median, s1, s2, lo, hi);
    ItemWeights(sqrt, median, s0, s2, lo, hi);
    CrossingIsCut(s2, lo, res.value, hi, lowervar);
  }

  // ----- choosing a box

  predicate Splittable(b: Box, maxMse: real)
    requires maxMse > 0.0
  {
    2 <= b.colors && Score(b, maxMse) > 0.0
  }

  /** The first box of highest positive score, or -1. */
  method BestSplittableBox(bv: array<Box>, boxes: nat, maxMse: real) returns (bi: int)
    requires boxes <= bv.Length && maxMse > 0.0
    ensures -1 <= bi < boxes
    ensures bi < 0 ==> forall i | 0 <= i < boxes :: !Splittable(bv[i], maxMse)
    ensures bi < 0 ==> forall i | 0 <= i < boxes && bv[i].colors >= 2 :: Score(bv[i], maxMse) <= 0.0
    ensures bi >= 0 ==> Splittable(bv[bi], maxMse) && bv[bi].colors >= 2 && Score(bv[bi], maxMse) > 0.0
    ensures bi >= 0 ==> forall i | 0 <= i < boxes && Splittable(bv[i], maxMse) ::
      Score(bv[i], maxMse) < Score(bv[bi], maxMse) || (Score(bv[i], maxMse) == Score(bv[bi], maxMse) && bi <= i)
  {
    hide Score;
    bi := -1;
    var maxsum := 0.0;
    for i := 0 to boxes
      invariant -1 <= bi < i
      invariant bi < 0 ==> maxsum == 0.0
      invariant bi >= 0 ==> Splittable(bv[bi], maxMse) && maxsum == Score(bv[bi], maxMse)
      invariant forall k | 0 <= k < i && Splittable(bv[k], maxMse) ::
        bi >= 0 && (Score(bv[k], maxMse) < maxsum || (Score(bv[k], maxMse) == maxsum && bi <= k))
    {
      if bv[i].colors < 2 {
        continue;
      }
      var thissum := Score(bv[i], maxMse);
      if thissum > maxsum {
        maxsum := thissum;
        bi := i;
      }
    }
  }

  // ----- the lazily computed error

  function ErrorIn(s: seq<HistItem>): Box -> real {
    (b: Box) => if b.ind + b.colors <= |s| then BoxError(b.color, s[b.ind..b.ind + b.colors]) else 0.0
  }

  function KnownError(b: Box): real {
    if b.totalError >= 0.0 then b.totalError else 0.0
  }

  function MissingError(s: seq<HistItem>): Box -> real {
    (b: Box) => if b.totalError < 0.0 then ErrorIn(s)(b) else 0.0
  }

  lemma {:induction false} SumAdd<T>(f: T -> real, g: T -> real, h: T -> real, s: seq<T>)
    requires forall x | x in s :: h(x) == f(x) + g(x)
    ensures Sum(h, s) == Sum(f, s) + Sum(g, s)
  {
    if s != [] {
      assert forall x | x in s[..|s| - 1] :: x in s;
      assert s[|s| - 1] in s;
      SumAdd(f, g, h, s[..|s| - 1]);
    }
  }

  lemma {:induction false} SumPrefix<T>(f: T -> real, s: seq<T>, i: nat)
    requires i <= |s| && forall x | x in s :: 0.0 <= f(x)
    ensures Sum(f, s[..i]) <= Sum(f, s)
  {
    assert s == s[..i] + s[i..];
    SumConcat(f, s[..i], s[i..]);
    assert forall x | x in s[i..] :: x in s;
    SumNonNegative(f, s[i..]);
  }

  ghost predicate AllBoxes(bv: seq<Box>, s: seq<HistItem>) {
    forall b | b in bv :: BoxOf(b, s)
  }

  /** Known and missing errors are non-negative and add up to the true error. */
  lemma {:induction false} ErrorParts(bv: seq<Box>, s: seq<HistItem>, i: nat, j: nat)
    requires AllBoxes(bv, s) && NonNegativeWeights(s) && i <= |bv| && j <= |bv|
    ensures Sum(KnownError, bv) + Sum(MissingError(s), bv) == Sum(ErrorIn(s), bv)
    ensures Sum(KnownError, bv[..i]) <= Sum(KnownError, bv)
    ensures Sum(MissingError(s), bv[..j]) <= Sum(MissingError(s), bv)
    ensures 0.0 <= Sum(MissingError(s), bv)
  {
    hide Sum, BoxError, Average, Variance, MaxError;
    forall b | b in bv
      ensures 0.0 <= KnownError(b) && 0.0 <= MissingError(s)(b)
      ensures ErrorIn(s)(b) == KnownError(b) + MissingError(s)(b)
    {
      assert BoxOf(b, s);
      assert forall h | h in Range(b, s) :: h in s;
      BoxErrorNonNegative(b.color, Range(b, s));
      RangeInside(b, s);
      FilledTerm(s, b);
    }
    SumAdd(KnownError, MissingError(s), ErrorIn(s), bv);
    SumPrefix(KnownError, bv, i);
    SumPrefix(MissingError(s), bv, j);
    SumNonNegative(MissingError(s), bv);
  }

  /** The box with its error filled in if it was missing. */
  function Filled(s: seq<HistItem>, b: Box): Box {
    if b.totalError < 0.0 then b.(totalError := ErrorIn(s)(b)) else b
  }

  lemma {:induction false} FilledIsBox(s: seq<HistItem>, b: Box)
    requires BoxOf(b, s)
    ensures BoxOf(Filled(s, b), s)
  {
    hide Sum, BoxError, Average, Variance, MaxError;
    assert Range(Filled(s, b), s) == Range(b, s);
  }

  /** Some boxes filled in, the others untouched: still all coherent. */
  lemma {:induction false} FilledAll(b0: seq<Box>, b1: seq<Box>, s: seq<HistItem>)
    requires AllBoxes(b0, s) && |b0| == |b1|
    requires forall k | 0 <= k < |b0| :: b1[k] == b0[k] || b1[k] == Filled(s, b0[k])
    ensures AllBoxes(b1, s)
    ensures forall k | 0 <= k < |b0| :: b1[k] == b0[k].(totalError := b1[k].totalError)
  {
    hide BoxOf, ErrorIn;
    forall b | b in b1
      ensures BoxOf(b, s)
    {
      var k :| 0 <= k < |b1| && b1[k] == b;
      assert b0[k] in b0;
      FilledIsBox(s, b0[k]);
    }
  }

  lemma {:induction false} BoxAt(bv: seq<Box>, s: seq<HistItem>, i: nat)
    requires AllBoxes(bv, s) && i < |bv|
    ensures BoxOf(bv[i], s)
  {
  }

  /** True exactly when the error of all boxes, recomputed from scratch, is within the target. */
  method TotalBoxErrorBelowTarget(targetMse: real, bv: array<Box>, boxes: nat, a: array<HistItem>,
                                  totalPerceptualWeight: real)
    returns (below: bool)
    requires 1 <= boxes <= bv.Length
    requires AllBoxes(bv[..boxes], a[..]) && NonNegativeWeights(a[..])
    modifies bv
    ensures forall i | boxes <= i < bv.Length :: bv[i] == old(bv[i])
    ensures forall i | 0 <= i < boxes :: bv[i] == old(bv[i]).(totalError := bv[i].totalError)
    ensures AllBoxes(bv[..boxes], a[..])
    ensures below <==> Sum(ErrorIn(a[..]), old(bv[..boxes])) <= targetMse * totalPerceptualWeight
  {
    hide Sum, AllBoxes, NonNegativeWeights, ErrorIn, MissingError, KnownError, BoxOf, Filled;
    var target := targetMse * totalPerceptualWeight;
    ghost var s := a[..];
    ghost var b0 := bv[..boxes];
    FilledAll(b0, b0, s);
    var totalError := 0.0;
    SumNone(KnownError, b0);
    SumNone(MissingError(s), b0);
    for i := 0 to boxes
      invariant totalError == Sum(KnownError, b0[..i])
      invariant 0 < i ==> totalError <= target
      invariant forall k | 0 <= k < bv.Length :: bv[k] == old(bv[k])
    {
      SumNext(KnownError, b0, i);
      KnownTerm(b0[i]);
      if bv[i].totalError >= 0.0 {
        totalError := totalError + bv[i].totalError;
      }
      if totalError > target {
        ErrorParts(b0, s, i + 1, 0);
        assert bv[..boxes] == b0;
        return false;
      }
    }
    assert b0[..boxes] == b0;
    for i := 0 to boxes
      invariant totalError == Sum(KnownError, b0) + Sum(MissingError(s), b0[..i])
      invariant totalError <= target
      invariant forall k | 0 <= k < i :: bv[k] == Filled(s, b0[k])
      invariant forall k | i <= k < boxes :: bv[k] == b0[k]
      invariant forall k | boxes <= k < bv.Length :: bv[k] == old(bv[k])
    {
      SumNext(MissingError(s), b0, i);
      FilledTerm(s, b0[i]);
      if bv[i].totalError < 0.0 {
        BoxAt(b0, s, i);
        RangeInside(bv[i], s);
        var error := ComputeBoxError(bv[i].color, a[bv[i].ind..bv[i].ind + bv[i].colors]);
        bv[i] := bv[i].(totalError := error);
        totalError := totalError + bv[i].totalError;
      }
      if totalError > target {
        ErrorParts(b0, s, 0, i + 1);
        FilledAll(b0, bv[..boxes], s);
        return false;
      }
    }
    ErrorParts(b0, s, 0, 0);
    FilledAll(b0, bv[..boxes], s);
    return true;
  }

  lemma {:induction false} SumNone<T>(f: T -> real, s: seq<T>)
    ensures Sum(f, s[..0]) == 0.0
  {
  }

  lemma {:induction false} KnownTerm(b: Box)
    ensures KnownError(b) == if b.totalError >= 0.0 then b.totalError else 0.0
  {
  }

  lemma {:induction false} FilledTerm(s: seq<HistItem>, b: Box)
    ensures b.totalError >= 0.0 ==> MissingError(s)(b) == 0.0 && Filled(s, b) == b
    ensures b.totalError < 0.0 ==> MissingError(s)(b) == ErrorIn(s)(b)
    ensures b.totalError < 0.0 ==> Filled(s, b) == b.(totalError := ErrorIn(s)(b))
  {
  }

  lemma {:induction false} RangeInside(b: Box, s: seq<HistItem>)
    requires BoxOf(b, s)
    ensures b.ind + b.colors <= |s| && ErrorIn(s)(b) == BoxError(b.color, s[b.ind..b.ind + b.colors])
  {
  }

  // ----- the boxes tile the histogram

  ghost predicate InBox(b: Box, k: int) {
    b.ind <= k < b.ind + b.colors
  }

  /** Each position lies in exactly one box, the one `owner` names; boxes are non-empty unless the histogram is. */
  ghost predicate Tiling(bv: seq<Box>, size: nat, owner: seq<nat>) {
    && |owner| == size
    && (forall k | 0 <= k < size :: owner[k] < |bv|)
    && (forall i, k | 0 <= i < |bv| && 0 <= k < size :: InBox(bv[i], k) <==> owner[k] == i)
    && (forall i | 0 <= i < |bv| :: bv[i].ind + bv[i].colors <= size && (0 < size ==> 1 <= bv[i].colors))
  }

  /** Owners after the part [cut, end) of a box has become the new last box. */
  ghost function Handover(owner: seq<nat>, cut: nat, end: nat, box: nat): (r: seq<nat>)
    ensures |r| == |owner|
  {
    seq(|owner|, k requires 0 <= k < |owner| => if cut <= k < end then box else owner[k])
  }

  lemma {:induction false} TilingSplit(bv: seq<Box>, size: nat, owner: seq<nat>, bi: nat, breakAt: nat, b1: Box,
                                       b2: Box)
    requires Tiling(bv, size, owner) && bi < |bv| && Halves(bv[bi], breakAt, b1, b2)
    ensures Tiling(bv[bi := b1] + [b2], size, Handover(owner, b2.ind, b2.ind + b2.colors, |bv|))
  {
    var bv' := bv[bi := b1] + [b2];
    var owner' := Handover(owner, b2.ind, b2.ind + b2.colors, |bv|);
    forall i, k | 0 <= i < |bv'| && 0 <= k < size
      ensures InBox(bv'[i], k) <==> owner'[k] == i
    {
      assert InBox(bv[bi], k) <==> owner[k] == bi;
      if i < |bv| {
        assert InBox(bv[i], k) <==> owner[k] == i;
      }
    }
  }

  /** Reworking one box leaves the range of every other box as it was. */
  lemma {:induction false} OtherRanges(bv: seq<Box>, s: seq<HistItem>, t: seq<HistItem>, owner: seq<nat>, bi: nat,
                                       i: nat)
    requires Tiling(bv, |s|, owner) && bi < |bv| && i < |bv| && i != bi
    requires Reworked(s, t, bv[bi].ind, bv[bi].ind + bv[bi].colors)
    ensures Range(bv[i], s) == Range(bv[i], t)
  {
    forall k | bv[i].ind <= k < bv[i].ind + bv[i].colors
      ensures s[k] == t[k]
    {
      assert InBox(bv[i], k);
      assert InBox(bv[bi], k) <==> owner[k] == bi;
    }
  }

  lemma {:induction false} BoxesAfterRework(bv: seq<Box>, s: seq<HistItem>, t: seq<HistItem>, owner: seq<nat>,
                                            bi: nat, b1: Box, b2: Box)
    requires Tiling(bv, |s|, owner) && bi < |bv| && AllBoxes(bv, s)
    requires Reworked(s, t, bv[bi].ind, bv[bi].ind + bv[bi].colors)
    requires BoxOf(b1, t) && BoxOf(b2, t)
    ensures AllBoxes(bv[bi := b1] + [b2], t)
  {
    hide Sum, BoxError, Average, Variance, MaxError, Tiling, Reworked, Range, BoxOf;
    ReworkedLength(s, t, bv[bi].ind, bv[bi].ind + bv[bi].colors);
    var bv' := bv[bi := b1] + [b2];
    forall b | b in bv'
      ensures BoxOf(b, t)
    {
      var i :| 0 <= i < |bv'| && bv'[i] == b;
      if i < |bv| && i != bi {
        BoxAt(bv, s, i);
        BoxInside(bv[i], s);
        OtherRanges(bv, s, t, owner, bi, i);
        BoxOfSameRange(bv[i], s, t);
      }
    }
  }

  lemma {:induction false} ReworkedLength(s: seq<HistItem>, t: seq<HistItem>, lo: nat, hi: nat)
    requires Reworked(s, t, lo, hi)
    ensures lo <= hi <= |s| == |t|
  {
  }

  // ----- conservation of perceptual weight

  function PopularityIn(s: seq<HistItem>): Box -> real {
    (b: Box) => if b.ind + b.colors <= |s| then Sum(Perceptual, s[b.ind..b.ind + b.colors]) else 0.0
  }

  lemma {:induction false} SumMiddle<T>(f: T -> real, u: seq<T>, x: T, v: seq<T>)
    ensures Sum(f, u + [x] + v) == Sum(f, u) + f(x) + Sum(f, v)
  {
    hide Sum;
    SumConcat(f, u + [x], v);
    SumConcat(f, u, [x]);
    SumSingle(f, x);
  }

  lemma {:induction false} SumReplace<T>(f: T -> real, s: seq<T>, i: nat, x: T, y: T)
    requires i < |s| && f(s[i]) == f(x) + f(y)
    ensures Sum(f, s[i := x] + [y]) == Sum(f, s)
  {
    hide Sum;
    var u, v := s[..i], s[i + 1..];
    assert s == u + [s[i]] + v;
    assert s[i := x] == u + [x] + v;
    SumMiddle(f, u, s[i], v);
    SumMiddle(f, u, x, v);
    SumConcat(f, s[i := x], [y]);
    SumSingle(f, y);
  }

  lemma {:induction false} PopularityTerm(s: seq<HistItem>, b: Box)
    requires b.ind + b.colors <= |s|
    ensures PopularityIn(s)(b) == Sum(Perceptual, Range(b, s))
  {
  }

  /** Two parts of a box: what the loop puts in `b1` and `b2`. */
  ghost predicate Halves(b: Box, breakAt: nat, b1: Box, b2: Box) {
    && 1 <= breakAt < b.colors
    && b1.ind == b.ind && b1.colors == breakAt
    && b2.ind == b.ind + breakAt && b2.colors == b.colors - breakAt
  }

  lemma {:induction false} HalvesSum(s: seq<HistItem>, t: seq<HistItem>, b: Box, breakAt: nat, b1: Box, b2: Box)
    requires Halves(b, breakAt, b1, b2) && Reworked(s, t, b.ind, b.ind + b.colors)
    ensures Sum(Adjusted, Range(b2, t)) == Sum(Adjusted, Range(b, s)) - Sum(Adjusted, Range(b1, t))
    ensures Sum(Perceptual, Range(b, s)) == Sum(Perceptual, Range(b1, t)) + Sum(Perceptual, Range(b2, t))
  {
    hide Sum;
    var lo, mid, hi := b.ind, b.ind + breakAt, b.ind + b.colors;
    SumReworked(s[lo..hi], t[lo..hi]);
    assert t[lo..hi] == t[lo..mid] + t[mid..hi];
    SumConcat(Perceptual, t[lo..mid], t[mid..hi]);
    SumConcat(Adjusted, t[lo..mid], t[mid..hi]);
  }

  lemma {:induction false} PopularityHalves(s: seq<HistItem>, t: seq<HistItem>, b: Box, breakAt: nat, b1: Box, b2: Box)
    requires Halves(b, breakAt, b1, b2) && Reworked(s, t, b.ind, b.ind + b.colors)
    ensures PopularityIn(t)(b) == PopularityIn(t)(b1) + PopularityIn(t)(b2)
  {
    ReworkedLength(s, t, b.ind, b.ind + b.colors);
    hide Sum, PopularityIn, Reworked, Range;
    HalvesSum(s, t, b, breakAt, b1, b2);
    PopularityBox(s, t, b);
    PopularityTerm(s, b);
    PopularityTerm(t, b1);
    PopularityTerm(t, b2);
  }

  /** Splitting a box hands its whole perceptual weight to its two parts. */
  lemma {:induction false} PopularitySplit(bv: seq<Box>, s: seq<HistItem>, t: seq<HistItem>, owner: seq<nat>,
                                           bi: nat, breakAt: nat, b1: Box, b2: Box)
    requires Tiling(bv, |s|, owner) && bi < |bv| && Halves(bv[bi], breakAt, b1, b2)
    requires Reworked(s, t, bv[bi].ind, bv[bi].ind + bv[bi].colors)
    ensures Sum(PopularityIn(t), bv[bi := b1] + [b2]) == Sum(PopularityIn(s), bv)
  {
    hide Sum, PopularityIn, Tiling, Reworked, Halves;
    PopularityHalves(s, t, bv[bi], breakAt, b1, b2);
    SumReplace(PopularityIn(t), bv, bi, b1, b2);
    PopularitySame(bv, s, t, owner, bi);
  }

  lemma {:induction false} PopularityBox(s: seq<HistItem>, t: seq<HistItem>, b: Box)
    requires Reworked(s, t, b.ind, b.ind + b.colors)
    ensures PopularityIn(t)(b) == PopularityIn(s)(b)
  {
    hide Sum, PopularityIn;
    PopularityTerm(s, b);
    PopularityTerm(t, b);
    SumReworked(Range(b, s), Range(b, t));
  }

  lemma {:induction false} PopularitySame(bv: seq<Box>, s: seq<HistItem>, t: seq<HistItem>, owner: seq<nat>, bi: nat)
    requires Tiling(bv, |s|, owner) && bi < |bv|
    requires Reworked(s, t, bv[bi].ind, bv[bi].ind + bv[bi].colors)
    ensures Sum(PopularityIn(t), bv) == Sum(PopularityIn(s), bv)
  {
    hide Sum, PopularityIn, Reworked, Range;
    ReworkedLength(s, t, bv[bi].ind, bv[bi].ind + bv[bi].colors);
    forall b | b in bv
      ensures PopularityIn(t)(b) == PopularityIn(s)(b)
    {
      var i :| 0 <= i < |bv| && bv[i] == b;
      if i == bi {
        PopularityBox(s, t, b);
      } else {
        OtherRanges(bv, s, t, owner, bi, i);
        PopularityTerm(s, b);
        PopularityTerm(t, b);
      }
    }
    SumSame(PopularityIn(t), PopularityIn(s), bv);
  }

  lemma {:induction false} SumSame<T>(f: T -> real, g: T -> real, s: seq<T>)
    requires forall x | x in s :: f(x) == g(x)
    ensures Sum(f, s) == Sum(g, s)
  {
    if s != [] {
      assert forall x | x in s[..|s| - 1] :: x in s;
      assert s[|s| - 1] in s;
      SumSame(f, g, s[..|s| - 1]);
    }
  }

  // ----- the loop

  /**
   What every iteration keeps: the histogram is a reordering of the input, the boxes tile it, the statistics of
   each box are those of its range, and no perceptual weight is lost.
   */
  ghost predicate CutState(s0: seq<HistItem>, s: seq<HistItem>, bv: seq<Box>, owner: seq<nat>) {
    && multiset(Map(CoreOf, s0)) == multiset(Map(CoreOf, s))
    && NonNegativeWeights(s)
    && Tiling(bv, |s|, owner)
    && AllBoxes(bv, s)
    && Sum(PopularityIn(s), bv) == Sum(Perceptual, s0)
  }

  lemma {:induction false} CutStart(s: seq<HistItem>, b: Box)
    requires NonNegativeWeights(s) && BoxOf(b, s) && b.ind == 0 && b.colors == |s|
    ensures CutState(s, s, [b], seq(|s|, _ => 0))
  {
    hide BoxOf, Sum, PopularityIn;
    PopularityTerm(s, b);
    SumSingle(PopularityIn(s), b);
    assert Range(b, s) == s;
  }

  lemma {:induction false} CutSplit(s0: seq<HistItem>, s: seq<HistItem>, t: seq<HistItem>, bv: seq<Box>,
                                    owner: seq<nat>, bi: nat, breakAt: nat, b1: Box, b2: Box)
    requires CutState(s0, s, bv, owner) && bi < |bv|
    requires Reworked(s, t, bv[bi].ind, bv[bi].ind + bv[bi].colors)
    requires Halves(bv[bi], breakAt, b1, b2) && BoxOf(b1, t) && BoxOf(b2, t)
    ensures CutState(s0, t, bv[bi := b1] + [b2], Handover(owner, b2.ind, b2.ind + b2.colors, |bv|))
  {
    hide BoxOf, Sum, PopularityIn, Tiling, Reworked, NonNegativeWeights, AllBoxes, Halves, Handover;
    ReworkedLength(s, t, bv[bi].ind, bv[bi].ind + bv[bi].colors);
    ReworkedWhole(s, t, bv[bi].ind, bv[bi].ind + bv[bi].colors);
    WeightsReworked(s, t);
    TilingSplit(bv, |s|, owner, bi, breakAt, b1, b2);
    BoxesAfterRework(bv, s, t, owner, bi, b1, b2);
    PopularitySplit(bv, s, t, owner, bi, breakAt, b1, b2);
  }

  /** Filling in cached errors changes nothing else. */
  lemma {:induction false} CutCached(s0: seq<HistItem>, s: seq<HistItem>, bv: seq<Box>, bv': seq<Box>, owner: seq<nat>)
    requires CutState(s0, s, bv, owner) && |bv| == |bv'| && AllBoxes(bv', s)
    requires forall i | 0 <= i < |bv| :: bv'[i] == bv[i].(totalError := bv'[i].totalError)
    ensures CutState(s0, s, bv', owner)
    ensures Sum(ErrorIn(s), bv) == Sum(ErrorIn(s), bv')
  {
    hide BoxOf, Sum, NonNegativeWeights, AllBoxes, BoxError;
    SumCongruent(PopularityIn(s), bv, bv');
    SumCongruent(ErrorIn(s), bv, bv');
    forall i, k | 0 <= i < |bv'| && 0 <= k < |s|
      ensures InBox(bv'[i], k) <==> owner[k] == i
    {
      assert InBox(bv[i], k) <==> owner[k] == i;
    }
  }

  method SumAdjusted(a: array<HistItem>, lo: nat, num: nat) returns (sum: real)
    requires lo + num <= a.Length
    ensures sum == Sum(Adjusted, a[lo..lo + num])
  {
    hide Sum;
    var s := a[lo..lo + num];
    SumNone(Adjusted, s);
    sum := 0.0;
    for i := 0 to num
      invariant sum == Sum(Adjusted, s[..i])
    {
      SumNext(Adjusted, s, i);
      sum := sum + a[lo + i].adjustedWeight;
    }
    assert s[..num] == s;
  }

  /** One iteration: split box bi, keep the first part in its place and append the second. */
  method SplitBox(sqrt: real -> real, a: array<HistItem>, bv: array<Box>, boxes: nat, bi: nat, ghost maxMse: real,
                  ghost s0: seq<HistItem>, ghost owner: seq<nat>)
    returns (ghost owner': seq<nat>)
    requires IsSquareRoot(sqrt) && maxMse > 0.0
    requires bi < boxes < bv.Length && CutState(s0, a[..], bv[..boxes], owner)
    requires Splittable(bv[bi], maxMse)
    modifies a, bv
    ensures CutState(s0, a[..], bv[..boxes + 1], owner')
    ensures Halves(old(bv[bi]), bv[bi].colors, bv[bi], bv[boxes])
    ensures BalancedCut(a[..], bv[bi].ind, bv[boxes].ind, bv[boxes].ind + bv[boxes].colors)
    ensures CutAlongWidest(old(bv[bi]), a[..], bv[bi].ind, bv[boxes].ind, bv[boxes].ind + bv[boxes].colors)
    ensures forall i | 0 <= i < bv.Length && i != bi && i != boxes :: bv[i] == old(bv[i])
  {
    hide IsSquareRoot, Score, CutState, Reworked, BoxOf, Sum, Halves, BalancedCut, NonNegativeWeights, Widest,
      CutAlong, KeyedBy, WeighedBy, ByVariance;
    ghost var s, bs := a[..], bv[..boxes];
    var b := bv[bi];
    BoxOfCut(s0, s, bs, owner, bi);
    var breakAt, _, order := FindBreak(sqrt, a, b, maxMse);
    ghost var t := a[..];
    var lowersum := SumAdjusted(a, b.ind, breakAt);
    var b1 := BoxInit(a, b.ind, breakAt, lowersum);
    UpperSum(s, t, b, breakAt, lowersum);
    var b2 := BoxInit(a, b.ind + breakAt, b.colors - breakAt, b.sum - lowersum);
    bv[bi] := b1;
    bv[boxes] := b2;
    HalvesOf(b, breakAt, b1, b2);
    CutSplit(s0, s, t, bs, owner, bi, breakAt, b1, b2);
    owner' := Handover(owner, b2.ind, b2.ind + b2.colors, boxes);
    assert bv[..boxes + 1] == bs[bi := b1] + [b2];
  }

  lemma {:induction false} HalvesOf(b: Box, breakAt: nat, b1: Box, b2: Box)
    requires 1 <= breakAt < b.colors
    requires b1.ind == b.ind && b1.colors == breakAt
    requires b2.ind == b.ind + breakAt && b2.colors == b.colors - breakAt
    ensures Halves(b, breakAt, b1, b2)
  {
  }

  lemma {:induction false} BoxOfCut(s0: seq<HistItem>, s: seq<HistItem>, bv: seq<Box>, owner: seq<nat>, bi: nat)
    requires CutState(s0, s, bv, owner) && bi < |bv|
    ensures NonNegativeWeights(s) && BoxOf(bv[bi], s) && bv[bi].ind + bv[bi].colors <= |s|
    ensures AllBoxes(bv, s)
  {
  }

  /** What is left of the box's sum is the sum of its second part. */
  lemma {:induction false} UpperSum(s: seq<HistItem>, t: seq<HistItem>, b: Box, breakAt: nat, lowersum: real)
    requires BoxOf(b, s) && Reworked(s, t, b.ind, b.ind + b.colors) && 1 <= breakAt < b.colors
    requires lowersum == Sum(Adjusted, t[b.ind..b.ind + breakAt])
    ensures b.sum - lowersum == Sum(Adjusted, t[b.ind + breakAt..b.ind + breakAt + (b.colors - breakAt)])
  {
    hide Average, Variance, MaxError, BoxError, Sum, Reworked;
    var b1, b2 := b.(colors := breakAt), b.(ind := b.ind + breakAt, colors := b.colors - breakAt);
    ReworkedLength(s, t, b.ind, b.ind + b.colors);
    HalvesSum(s, t, b, breakAt, b1, b2);
  }

  // ----- the result

  function PopularityOf(c: ColormapItem): real {
    c.popularity
  }

  /** Palette entry of a box: its mean colour and the total perceptual weight of its items. */
  ghost predicate EntryOf(c: ColormapItem, b: Box, s: seq<HistItem>) {
    b.ind + b.colors <= |s| && c.acolor == b.color && c.popularity == Sum(Perceptual, Range(b, s))
  }

  method SetColormapFromBoxes(bv: array<Box>, boxes: nat, a: array<HistItem>) returns (palette: array<ColormapItem>)
    requires boxes <= bv.Length && AllBoxes(bv[..boxes], a[..])
    ensures fresh(palette) && palette.Length == boxes
    ensures forall i | 0 <= i < boxes :: EntryOf(palette[i], bv[i], a[..])
    ensures Sum(PopularityOf, palette[..]) == Sum(PopularityIn(a[..]), bv[..boxes])
  {
    hide Sum, BoxOf, EntryOf, AllBoxes, PopularityIn;
    palette := new ColormapItem[boxes];
    for bi := 0 to boxes
      invariant forall i | 0 <= i < bi :: EntryOf(palette[i], bv[i], a[..])
    {
      BoxAt(bv[..boxes], a[..], bi);
      BoxInside(bv[bi], a[..]);
      var popularity := SumPerceptual(a, bv[bi].ind, bv[bi].colors);
      palette[bi] := ColormapItem(bv[bi].color, popularity);
      EntryIs(palette[bi], bv[bi], a[..]);
    }
    EntrySums(palette[..], bv[..boxes], a[..]);
  }

  lemma {:induction false} EntryIs(c: ColormapItem, b: Box, s: seq<HistItem>)
    requires b.ind + b.colors <= |s| && c.acolor == b.color
    requires c.popularity == Sum(Perceptual, s[b.ind..b.ind + b.colors])
    ensures EntryOf(c, b, s)
  {
  }

  lemma {:induction false} EntrySums(palette: seq<ColormapItem>, bv: seq<Box>, s: seq<HistItem>)
    requires |palette| == |bv| && forall i | 0 <= i < |bv| :: EntryOf(palette[i], bv[i], s)
    ensures Sum(PopularityOf, palette) == Sum(PopularityIn(s), bv)
  {
    if bv != [] {
      EntrySums(palette[..|bv| - 1], bv[..|bv| - 1], s);
    }
  }

  method SumPerceptual(a: array<HistItem>, lo: nat, num: nat) returns (sum: real)
    requires lo + num <= a.Length
    ensures sum == Sum(Perceptual, a[lo..lo + num])
  {
    hide Sum;
    var s := a[lo..lo + num];
    SumNone(Perceptual, s);
    sum := 0.0;
    for i := 0 to num
      invariant sum == Sum(Perceptual, s[..i])
    {
      SumNext(Perceptual, s, i);
      sum := sum + a[lo + i].perceptualWeight;
    }
    assert s[..num] == s;
  }

  /** Labels every item with the box containing it; the label is an unsigned char. */
  method AdjustHistogram(a: array<HistItem>, bv: array<Box>, boxes: nat, ghost owner: seq<nat>)
    requires boxes <= bv.Length && Tiling(bv[..boxes], a.Length, owner)
    modifies a
    ensures forall k | 0 <= k < a.Length :: a[k] == old(a[k]).(likelyColormapIndex := owner[k] % 256)
  {
    hide Tiling;
    for bi := 0 to boxes
      invariant forall k | 0 <= k < a.Length && k < |owner| && owner[k] < bi ::
        a[k] == old(a[k]).(likelyColormapIndex := owner[k] % 256)
      invariant forall k | 0 <= k < a.Length && k < |owner| && owner[k] >= bi :: a[k] == old(a[k])
    {
      OwnedRange(bv[..boxes], a.Length, owner, bi);
      for i := bv[bi].ind to bv[bi].ind + bv[bi].colors
        invariant forall k | 0 <= k < a.Length && (owner[k] < bi || (owner[k] == bi && k < i)) ::
          a[k] == old(a[k]).(likelyColormapIndex := owner[k] % 256)
        invariant forall k | 0 <= k < a.Length && (owner[k] > bi || (owner[k] == bi && k >= i)) :: a[k] == old(a[k])
      {
        a[i] := a[i].(likelyColormapIndex := bi % 256);
      }
    }
    Owners(bv[..boxes], a.Length, owner);
  }

  lemma {:induction false} OwnedRange(bv: seq<Box>, size: nat, owner: seq<nat>, i: nat)
    requires Tiling(bv, size, owner) && i < |bv|
    ensures |owner| == size && bv[i].ind + bv[i].colors <= size
    ensures forall k | 0 <= k < size :: owner[k] == i <==> bv[i].ind <= k < bv[i].ind + bv[i].colors
  {
  }

  lemma {:induction false} Owners(bv: seq<Box>, size: nat, owner: seq<nat>)
    requires Tiling(bv, size, owner)
    ensures |owner| == size && forall k | 0 <= k < size :: owner[k] < |bv|
  {
  }

  // ----- the error of the palette

  /** Weighted distance of the first n items from the palette entries they are labelled with. */
  function QuantisationError(s: seq<HistItem>, owner: seq<nat>, palette: seq<Pixel>, n: nat): real
    requires n <= |s| == |owner| && forall k | 0 <= k < |owner| :: owner[k] < |palette|
  {
    if n == 0 then 0.0 else
      var before, h := QuantisationError(s, owner, palette, n - 1), s[n - 1];
      before + ColorDifference(palette[owner[n - 1]], h.acolor) * h.perceptualWeight
  }

  /** The part of it from items labelled with one of the first m entries. */
  ghost function ErrorBelow(s: seq<HistItem>, owner: seq<nat>, palette: seq<Pixel>, m: nat, n: nat): real
    requires n <= |s| == |owner| && forall k | 0 <= k < |owner| :: owner[k] < |palette|
  {
    if n == 0 then 0.0 else
      var before := ErrorBelow(s, owner, palette, m, n - 1);
      if owner[n - 1] < m then before + ErrorTerm(palette[owner[n - 1]])(s[n - 1]) else before
  }

  /** The part of it from items labelled with entry i. */
  ghost function ErrorAt(s: seq<HistItem>, owner: seq<nat>, palette: seq<Pixel>, i: nat, n: nat): real
    requires n <= |s| == |owner| && i < |palette|
  {
    if n == 0 then 0.0 else
      var before := ErrorAt(s, owner, palette, i, n - 1);
      if owner[n - 1] == i then before + ErrorTerm(palette[i])(s[n - 1]) else before
  }

  lemma {:induction false} ErrorSplit(s: seq<HistItem>, owner: seq<nat>, palette: seq<Pixel>, m: nat, n: nat)
    requires n <= |s| == |owner| && forall k | 0 <= k < |owner| :: owner[k] < |palette|
    requires m < |palette|
    ensures ErrorBelow(s, owner, palette, m + 1, n) ==
      ErrorBelow(s, owner, palette, m, n) + ErrorAt(s, owner, palette, m, n)
  {
    hide ErrorTerm;
    if n > 0 {
      ErrorSplit(s, owner, palette, m, n - 1);
    }
  }

  lemma {:induction false} ErrorEnds(s: seq<HistItem>, owner: seq<nat>, palette: seq<Pixel>, n: nat)
    requires n <= |s| == |owner| && forall k | 0 <= k < |owner| :: owner[k] < |palette|
    ensures ErrorBelow(s, owner, palette, 0, n) == 0.0
    ensures ErrorBelow(s, owner, palette, |palette|, n) == QuantisationError(s, owner, palette, n)
  {
    hide ColorDifference;
    if n > 0 {
      ErrorEnds(s, owner, palette, n - 1);
    }
  }

  /** Items of a box are those labelled with it, so their error is that of its range. */
  lemma {:induction false} ErrorOfRange(s: seq<HistItem>, owner: seq<nat>, palette: seq<Pixel>, i: nat, lo: nat,
                                        hi: nat, n: nat)
    requires n <= |s| == |owner| && i < |palette| && lo <= hi <= |s|
    requires forall k | 0 <= k < |s| :: lo <= k < hi <==> owner[k] == i
    ensures ErrorAt(s, owner, palette, i, n) ==
      if n <= lo then 0.0 else Sum(ErrorTerm(palette[i]), s[lo..if n <= hi then n else hi])
  {
    hide ErrorTerm;
    if n > 0 {
      ErrorOfRange(s, owner, palette, i, lo, hi, n - 1);
      if lo < n <= hi {
        assert s[lo..n][..n - 1 - lo] == s[lo..n - 1];
      }
    }
  }

  ghost function Colors(bv: seq<Box>): (r: seq<Pixel>)
    ensures |r| == |bv| && forall i | 0 <= i < |bv| :: r[i] == bv[i].color
  {
    seq(|bv|, i requires 0 <= i < |bv| => bv[i].color)
  }

  lemma {:induction false} BoxErrorOwned(bv: seq<Box>, s: seq<HistItem>, owner: seq<nat>, i: nat)
    requires Tiling(bv, |s|, owner) && i < |bv|
    ensures ErrorIn(s)(bv[i]) == ErrorAt(s, owner, Colors(bv), i, |s|)
  {
    hide Sum, ErrorTerm;
    var lo, hi := bv[i].ind, bv[i].ind + bv[i].colors;
    forall k | 0 <= k < |s|
      ensures lo <= k < hi <==> owner[k] == i
    {
      assert InBox(bv[i], k) <==> owner[k] == i;
    }
    ErrorOfRange(s, owner, Colors(bv), i, lo, hi, |s|);
    if |s| == 0 {
      assert s[lo..hi] == [];
      SumNone(ErrorTerm(bv[i].color), s);
    }
  }

  lemma {:induction false} ErrorsBelow(bv: seq<Box>, s: seq<HistItem>, owner: seq<nat>, m: nat)
    requires Tiling(bv, |s|, owner) && m <= |bv|
    ensures Sum(ErrorIn(s), bv[..m]) == ErrorBelow(s, owner, Colors(bv), m, |s|)
  {
    hide ErrorIn, ErrorTerm;
    if m == 0 {
      ErrorEnds(s, owner, Colors(bv), |s|);
    } else {
      ErrorsBelow(bv, s, owner, m - 1);
      ErrorSplit(s, owner, Colors(bv), m - 1, |s|);
      BoxErrorOwned(bv, s, owner, m - 1);
      assert bv[..m][..m - 1] == bv[..m - 1];
    }
  }

  /** The total box error is the error of mapping every item to the colour of the box it is labelled with. */
  lemma {:induction false} TotalErrorIs(bv: seq<Box>, s: seq<HistItem>, owner: seq<nat>)
    requires Tiling(bv, |s|, owner)
    ensures Sum(ErrorIn(s), bv) == QuantisationError(s, owner, Colors(bv), |s|)
  {
    hide ErrorIn, ErrorTerm, Sum;
    ErrorsBelow(bv, s, owner, |bv|);
    ErrorEnds(s, owner, Colors(bv), |s|);
    assert bv[..|bv|] == bv;
  }

  /** Why the loop stopped: the palette is full, no box is worth splitting, or the error target is met. */
  ghost predicate Finished(s: seq<HistItem>, bv: seq<Box>, newcolors: nat, maxMse: real, target: real)
    requires maxMse > 0.0 && 0 < newcolors
  {
    || |bv| == newcolors
    || (forall i | 0 <= i < |bv| :: !Splittable(bv[i], CurrentMaxMse(maxMse, |bv|, newcolors)))
    || Sum(ErrorIn(s), bv) <= target
  }

  /** The quality limit is raised as boxes are used up. */
  function CurrentMaxMse(maxMse: real, boxes: nat, newcolors: nat): (r: real)
    requires maxMse > 0.0 && 0 < newcolors
    ensures r >= maxMse
  {
    var fraction := boxes as real / newcolors as real;
    assert 0.0 <= fraction;
    assert 0.0 <= fraction * 16.0 * maxMse;
    maxMse + fraction * 16.0 * maxMse
  }

  /** It grows evenly from the given limit to seventeen times that. */
  lemma {:induction false} MaxMseGrows(maxMse: real, boxes: nat, newcolors: nat)
    requires maxMse > 0.0 && 0 < newcolors
    ensures (CurrentMaxMse(maxMse, boxes, newcolors) - maxMse) * newcolors as real == 16.0 * maxMse * boxes as real
  {
    var n, b := newcolors as real, boxes as real;
    assert b / n * n == b;
    assert (b / n * 16.0 * maxMse) * n == 16.0 * maxMse * (b / n * n);
  }

  method MedianCut(sqrt: real -> real, a: array<HistItem>, newcolors: nat, targetMse: real, maxMse: real,
                   totalPerceptualWeight: real)
    returns (palette: array<ColormapItem>, ghost sorted: seq<HistItem>, ghost boxes: seq<Box>, ghost owner: seq<nat>)
    requires IsSquareRoot(sqrt) && 1 <= newcolors && maxMse > 0.0 && NonNegativeWeights(a[..])
    modifies a
    ensures CutState(old(a[..]), sorted, boxes, owner)
    ensures 1 <= |boxes| <= newcolors
    ensures Finished(sorted, boxes, newcolors, maxMse, targetMse * totalPerceptualWeight)
    ensures |sorted| == a.Length == |owner|
    ensures forall k | 0 <= k < a.Length :: a[k] == sorted[k].(likelyColormapIndex := owner[k] % 256)
    ensures palette.Length == |boxes| && forall i | 0 <= i < |boxes| :: EntryOf(palette[i], boxes[i], sorted)
    ensures Sum(PopularityOf, palette[..]) == Sum(Perceptual, old(a[..]))
    ensures forall k | 0 <= k < |owner| :: owner[k] < palette.Length
    ensures Sum(ErrorIn(sorted), boxes) == QuantisationError(sorted, owner, PaletteColors(palette[..]), |sorted|)
  {
    hide IsSquareRoot, CutState, Sum, NonNegativeWeights, BoxOf, EntryOf, AllBoxes, Tiling, Finished;
    ghost var s0 := a[..];
    var bv, n;
    bv, n, owner := CutBoxes(sqrt, a, newcolors, targetMse, maxMse, totalPerceptualWeight);
    sorted, boxes := a[..], bv[..n];
    CutParts(s0, sorted, boxes, owner);
    palette := SetColormapFromBoxes(bv, n, a);
    AdjustHistogram(a, bv, n, owner);
    TotalErrorIs(boxes, sorted, owner);
    SameColors(palette[..], boxes, sorted);
    OwnersInside(boxes, |sorted|, owner);
  }

  function PaletteColors(palette: seq<ColormapItem>): (r: seq<Pixel>)
    ensures |r| == |palette| && forall i | 0 <= i < |palette| :: r[i] == palette[i].acolor
  {
    seq(|palette|, i requires 0 <= i < |palette| => palette[i].acolor)
  }

  lemma {:induction false} SameColors(palette: seq<ColormapItem>, bv: seq<Box>, s: seq<HistItem>)
    requires |palette| == |bv| && forall i | 0 <= i < |bv| :: EntryOf(palette[i], bv[i], s)
    ensures PaletteColors(palette) == Colors(bv)
  {
    hide Sum;
    assert forall i | 0 <= i < |bv| :: EntryOf(palette[i], bv[i], s);
  }

  lemma {:induction false} OwnersInside(bv: seq<Box>, size: nat, owner: seq<nat>)
    requires Tiling(bv, size, owner)
    ensures forall k | 0 <= k < |owner| :: owner[k] < |bv|
  {
  }

  lemma {:induction false} CutParts(s0: seq<HistItem>, s: seq<HistItem>, bv: seq<Box>, owner: seq<nat>)
    requires CutState(s0, s, bv, owner)
    ensures AllBoxes(bv, s) && Tiling(bv, |s|, owner) && |owner| == |s|
    ensures Sum(PopularityIn(s), bv) == Sum(Perceptual, s0)
  {
  }

  /** The main loop. */
  method CutBoxes(sqrt: real -> real, a: array<HistItem>, newcolors: nat, targetMse: real, maxMse: real,
                  totalPerceptualWeight: real)
    returns (bv: array<Box>, boxes: nat, ghost owner: seq<nat>)
    requires IsSquareRoot(sqrt) && 1 <= newcolors && maxMse > 0.0 && NonNegativeWeights(a[..])
    modifies a
    ensures fresh(bv) && 1 <= boxes <= newcolors && boxes <= bv.Length
    ensures CutState(old(a[..]), a[..], bv[..boxes], owner)
    ensures Finished(a[..], bv[..boxes], newcolors, maxMse, targetMse * totalPerceptualWeight)
  {
    hide IsSquareRoot, CutState, Sum, NonNegativeWeights, BoxOf, AllBoxes, Score, Halves, BalancedCut;
    ghost var s0 := a[..];
    bv := new Box[newcolors];
    boxes := 1;
    var sum := SumAdjusted(a, 0, a.Length);
    bv[0] := BoxInit(a, 0, a.Length, sum);
    CutStart(s0, bv[0]);
    owner := seq(a.Length, _ => 0);
    assert bv[..1] == [bv[0]];
    while boxes < newcolors
      invariant 1 <= boxes <= newcolors == bv.Length && fresh(bv)
      invariant CutState(s0, a[..], bv[..boxes], owner)
    {
      var currentMaxMse := CurrentMaxMse(maxMse, boxes, newcolors);
      var bi := BestSplittableBox(bv, boxes, currentMaxMse);
      if bi < 0 {
        return;
      }
      owner := SplitBox(sqrt, a, bv, boxes, bi, currentMaxMse, s0, owner);
      boxes := boxes + 1;
      ghost var bs := bv[..boxes];
      BoxOfCut(s0, a[..], bs, owner, 0);
      var below := TotalBoxErrorBelowTarget(targetMse, bv, boxes, a, totalPerceptualWeight);
      CutCached(s0, a[..], bs, bv[..boxes], owner);
      if below {
        return;
      }
    }
  }
}
