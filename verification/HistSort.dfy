/**
 The in-place sorting helpers of `mediancut.c`: a quicksort partition, a quick select,
 and a selection that stops where the running sum of colour weights passes a bound.
 */
module HistSort {
  import opened Basics
  import opened ColorMetric
  import opened Permutations

  datatype HistItem = HistItem(acolor: Pixel, adjustedWeight: real, perceptualWeight: real,
                               colorWeight: real, sortValue: nat, likelyColormapIndex: nat)

  /** Descending cut: everything in [lo, mid) sorts at or above everything in [mid, hi). */
  ghost predicate Above(s: seq<HistItem>, lo: nat, mid: nat, hi: nat) {
    forall i, j | 0 <= lo <= i < mid <= j < hi <= |s| :: s[i].sortValue >= s[j].sortValue
  }

  /** Shuffling on one side of a cut keeps the cut. */
  lemma {:induction false} AboveShuffled(s: seq<HistItem>, t: seq<HistItem>, lo: nat, mid: nat, hi: nat, p: nat, q: nat)
    requires hi <= |s| && Above(s, lo, mid, hi) && Shuffled(s, t, p, q)
    requires (lo <= p && q <= mid) || (mid <= p && q <= hi)
    ensures Above(t, lo, mid, hi)
  {
    forall i, j | lo <= i < mid <= j < hi
      ensures t[i].sortValue >= t[j].sortValue
    {
      var i', j' := i, j;
      if p <= i < q {
        i' := ShuffledOrigin(s, t, p, q, i);
      }
      if p <= j < q {
        j' := ShuffledOrigin(s, t, p, q, j);
      }
      assert s[i'].sortValue >= s[j'].sortValue;
    }
  }

  /** A cut inside a stretch whose both ends are cuts is a cut of the whole. */
  lemma {:induction false} AboveExtend(s: seq<HistItem>, lo: nat, p: nat, mid: nat, q: nat, hi: nat)
    requires lo <= p <= mid <= q <= hi <= |s|
    requires Above(s, lo, p, hi) && Above(s, lo, q, hi) && Above(s, p, mid, q)
    ensures Above(s, lo, mid, hi)
  {
  }

  /** Swaps two items of a stretch that is a reordering of the same stretch of `origin`. */
  method HistItemSwap(a: array<HistItem>, i: nat, j: nat, ghost origin: seq<HistItem>, ghost lo: nat, ghost hi: nat)
    requires lo <= i < hi <= a.Length && lo <= j < hi
    requires Shuffled(origin, a[..], lo, hi)
    modifies a
    ensures a[i] == old(a[j]) && a[j] == old(a[i])
    ensures forall k | 0 <= k < a.Length && k != i && k != j :: a[k] == old(a[k])
    ensures Shuffled(origin, a[..], lo, hi)
  {
    ghost var s := a[..];
    if i != j {
      var t := a[i];
      a[i] := a[j];
      a[j] := t;
    }
    ShuffledSwap(s, a[..], lo, hi, i, j);
  }

  /** The middle of a short stretch, or the median of three samples of a long one. */
  function QsortPivot(s: seq<HistItem>): (k: nat)
    requires s != []
    ensures k < |s|
  {
    var len := |s|;
    if len < 32 then len / 2
    else
      var aidx, bidx, cidx := 8, len / 2, len - 1;
      var a, b, c := s[aidx].sortValue, s[bidx].sortValue, s[cidx].sortValue;
      if a < b then (if b < c then bidx else if a < c then cidx else aidx)
      else (if b > c then bidx else if a < c then aidx else cidx)
  }

  lemma {:induction false} PivotIsMedian(s: seq<HistItem>)
    requires |s| >= 32
    ensures var k, a, b, c := QsortPivot(s), 8, |s| / 2, |s| - 1;
      && k in {a, b, c}
      && (exists i | i in {a, b, c} && i != k :: s[i].sortValue <= s[k].sortValue)
      && (exists i | i in {a, b, c} && i != k :: s[i].sortValue >= s[k].sortValue)
  {
  }

  /** The inner loop of the partition: walks r down past items at or below the pivot. */
  method ScanDown(a: array<HistItem>, lo: nat, l: nat, start: nat, ghost len: nat, pivotValue: nat) returns (r: nat)
    requires l < start <= len && lo + len <= a.Length
    requires forall k | lo + start <= k < lo + len :: a[k].sortValue <= pivotValue
    ensures l <= r < start
    ensures forall k | lo + r < k < lo + len :: a[k].sortValue <= pivotValue
    ensures l == r || a[lo + r].sortValue > pivotValue
  {
    r := start - 1;
    while l < r && a[lo + r].sortValue <= pivotValue
      invariant l <= r < start
      invariant forall k | lo + r < k < lo + len :: a[k].sortValue <= pivotValue
    {
      r := r - 1;
    }
  }

  /** The outer loop of the partition, with the pivot parked at the front of the stretch. */
  method PartitionLoop(a: array<HistItem>, lo: nat, len: nat, ghost origin: seq<HistItem>) returns (l: nat)
    requires 1 <= len && lo + len <= a.Length
    requires Shuffled(origin, a[..], lo, lo + len)
    modifies a
    ensures 1 <= l <= len
    ensures Shuffled(origin, a[..], lo, lo + len)
    ensures forall k | lo <= k < lo + l :: a[k].sortValue >= a[lo].sortValue
    ensures forall k | lo + l <= k < lo + len :: a[k].sortValue <= a[lo].sortValue
  {
    hide Shuffled;
    l := 1;
    var r := len;
    var pivotValue := a[lo].sortValue;
    while l < r
      invariant 1 <= l <= r <= len
      invariant Shuffled(origin, a[..], lo, lo + len)
      invariant a[lo].sortValue == pivotValue
      invariant forall k | lo <= k < lo + l :: a[k].sortValue >= pivotValue
      invariant forall k | lo + r <= k < lo + len :: a[k].sortValue <= pivotValue
      decreases r - l
    {
      if a[lo + l].sortValue >= pivotValue {
        l := l + 1;
      } else {
        r := ScanDown(a, lo, l, r, len, pivotValue);
        HistItemSwap(a, lo + l, lo + r, origin, lo, lo + len);
      }
    }
  }

  method QsortPartition(a: array<HistItem>, lo: nat, len: nat) returns (l: nat)
    requires 1 <= len && lo + len <= a.Length
    modifies a
    ensures l < len
    ensures Shuffled(old(a[..]), a[..], lo, lo + len)
    ensures Above(a[..], lo, lo + l, lo + len) && Above(a[..], lo, lo + l + 1, lo + len)
  {
    hide Shuffled, Above, QsortPivot;
    ghost var s := a[..];
    ShuffledRefl(s, lo, lo + len);
    if len >= 8 {
      var pivot := QsortPivot(a[lo..lo + len]);
      HistItemSwap(a, lo, lo + pivot, s, lo, lo + len);
    }
    l := PartitionLoop(a, lo, len, s);
    l := l - 1;
    ghost var t := a[..];
    HistItemSwap(a, lo, lo + l, s, lo, lo + len);
    PivotPlaced(t, a[..], lo, l, len);
  }

  /** Swapping the parked pivot into place turns the partition bounds into cuts around it. */
  lemma {:induction false} PivotPlaced(t: seq<HistItem>, u: seq<HistItem>, lo: nat, l: nat, len: nat)
    requires l < len && lo + len <= |t| == |u|
    requires forall k | lo <= k <= lo + l :: t[k].sortValue >= t[lo].sortValue
    requires forall k | lo + l < k < lo + len :: t[k].sortValue <= t[lo].sortValue
    requires u[lo] == t[lo + l] && u[lo + l] == t[lo]
    requires forall k | 0 <= k < |t| && k != lo && k != lo + l :: u[k] == t[k]
    ensures Above(u, lo, lo + l, lo + len) && Above(u, lo, lo + l + 1, lo + len)
  {
  }

  /** Quick select: afterwards everything before `sortStart` sorts at or above everything from it on. */
  method HistItemSortRange(a: array<HistItem>, lo: nat, num: nat, start: nat)
    requires start < num && lo + num <= a.Length
    modifies a
    ensures Shuffled(old(a[..]), a[..], lo, lo + num)
    ensures Above(a[..], lo, lo + start, lo + num)
  {
    hide Shuffled, Above;
    ghost var hi := lo + num;
    ghost var origin := a[..];
    ShuffledRefl(origin, lo, hi);
    AboveEnds(origin, lo, hi);
    var base, len, sortStart := lo, num, start;
    while true
      invariant lo <= base && base + len <= hi && 0 <= sortStart < len && base + sortStart == lo + start
      invariant Shuffled(origin, a[..], lo, hi)
      invariant Above(a[..], lo, base, hi) && Above(a[..], lo, base + len, hi)
      decreases len
    {
      ghost var s := a[..];
      var l := QsortPartition(a, base, len);
      var r := l + 1;
      PartitionInside(origin, s, a[..], lo, base, base + l, base + len, hi);
      if l > 0 && sortStart < l {
        len := l;
      } else if r < len && sortStart > r {
        base, len, sortStart := base + r, len - r, sortStart - r;
      } else {
        break;
      }
    }
  }

  lemma {:induction false} AboveEnds(s: seq<HistItem>, lo: nat, hi: nat)
    ensures Above(s, lo, lo, hi) && Above(s, lo, hi, hi)
  {
  }

  /** Partitioning a stretch between two cuts keeps both and adds the cuts around the pivot. */
  lemma {:induction false} PartitionInside(origin: seq<HistItem>, s: seq<HistItem>, t: seq<HistItem>, lo: nat,
                                           p: nat, pivot: nat, q: nat, hi: nat)
    requires lo <= p <= pivot < q <= hi
    requires Shuffled(origin, s, lo, hi) && Above(s, lo, p, hi) && Above(s, lo, q, hi)
    requires Shuffled(s, t, p, q) && Above(t, p, pivot, q) && Above(t, p, pivot + 1, q)
    ensures Shuffled(origin, t, lo, hi)
    ensures Above(t, lo, p, hi) && Above(t, lo, q, hi) && Above(t, lo, pivot, hi) && Above(t, lo, pivot + 1, hi)
  {
    assert hi <= |s| == |t|;
    hide Shuffled, Above;
    ShuffledWiden(s, t, p, q, lo, hi);
    ShuffledTrans(origin, s, t, lo, hi);
    AboveShuffled(s, t, lo, p, hi, p, q);
    AboveShuffled(s, t, lo, q, hi, p, q);
    AboveExtend(t, lo, p, pivot, q, hi);
    AboveExtend(t, lo, p, pivot + 1, q, hi);
  }

  // ----- weighted selection

  function WeightOf(h: HistItem): real {
    h.colorWeight
  }

  /** Total colour weight of the items in [i, j). */
  ghost function Weight(s: seq<HistItem>, i: nat, j: nat): real
    requires i <= j <= |s|
  {
    Sum(WeightOf, s[i..j])
  }

  lemma {:induction false} WeightSplit(s: seq<HistItem>, i: nat, j: nat, k: nat)
    requires i <= j <= k <= |s|
    ensures Weight(s, i, k) == Weight(s, i, j) + Weight(s, j, k)
  {
    assert s[i..k] == s[i..j] + s[j..k];
    SumConcat(WeightOf, s[i..j], s[j..k]);
  }

  lemma {:induction false} WeightNext(s: seq<HistItem>, i: nat, j: nat)
    requires i <= j < |s|
    ensures Weight(s, i, j + 1) == Weight(s, i, j) + s[j].colorWeight
  {
    assert s[i..j + 1][..j - i] == s[i..j];
  }

  lemma {:induction false} WeightShuffled(s: seq<HistItem>, t: seq<HistItem>, p: nat, q: nat, i: nat, j: nat)
    requires Shuffled(s, t, p, q) && i <= j <= |s|
    requires (i <= p && q <= j) || j <= p || q <= i
    ensures Weight(s, i, j) == Weight(t, i, j)
  {
    if i <= p && q <= j {
      ShuffledWiden(s, t, p, q, i, j);
      SumPermute(WeightOf, s[i..j], t[i..j]);
    } else {
      assert s[i..j] == t[i..j];
    }
  }

  /**
   Where the selection stands before looking at [base, hi): the stretch [lo, hi) is a reordering of
   the original, [lo, base) sorts above the rest, and its weight has been counted once and is at most the bound.
   */
  ghost predicate Counted(origin: seq<HistItem>, s: seq<HistItem>, lo: nat, base: nat, hi: nat, lower0: real,
                          lowervar: real, halfvar: real)
  {
    && lo <= base <= hi <= |s|
    && Shuffled(origin, s, lo, hi)
    && Above(s, lo, base, hi)
    && lowervar == lower0 + Weight(s, lo, base)
    && lowervar <= halfvar
  }

  /** Shuffling inside the part not yet counted changes nothing that has been counted. */
  lemma {:induction false} CountedShuffle(origin: seq<HistItem>, s: seq<HistItem>, t: seq<HistItem>, lo: nat,
                                          base: nat, q: nat, hi: nat, lower0: real, lowervar: real, halfvar: real)
    requires Counted(origin, s, lo, base, hi, lower0, lowervar, halfvar)
    requires base <= q <= hi && Shuffled(s, t, base, q)
    ensures Counted(origin, t, lo, base, hi, lower0, lowervar, halfvar)
  {
    assert |s| == |t|;
    hide Shuffled, Above, Weight;
    ShuffledWiden(s, t, base, q, lo, hi);
    ShuffledTrans(origin, s, t, lo, hi);
    AboveShuffled(s, t, lo, base, hi, base, q);
    WeightShuffled(s, t, base, q, lo, base);
  }

  /** A cut of the uncounted part is a cut of the whole stretch. */
  lemma {:induction false} CountedCut(origin: seq<HistItem>, s: seq<HistItem>, lo: nat, base: nat, mid: nat, hi: nat,
                                      lower0: real, lowervar: real, halfvar: real)
    requires Counted(origin, s, lo, base, hi, lower0, lowervar, halfvar)
    requires base <= mid <= hi && Above(s, base, mid, hi)
    ensures Above(s, lo, mid, hi)
  {
  }

  lemma {:induction false} CountedAdvance(origin: seq<HistItem>, s: seq<HistItem>, lo: nat, base: nat, next: nat,
                                          hi: nat, lower0: real, lowervar: real, lower1: real, halfvar: real)
    requires Counted(origin, s, lo, base, hi, lower0, lowervar, halfvar)
    requires base <= next <= hi && Above(s, lo, next, hi)
    requires lower1 == lowervar + Weight(s, base, next) <= halfvar
    ensures Counted(origin, s, lo, next, hi, lower0, lower1, halfvar)
  {
    WeightSplit(s, lo, base, next);
  }

  /**
   Item p is where the running weight passes the bound; it sorts below everything before it and above everything
   after.
   */
  ghost predicate Crossing(s: seq<HistItem>, lo: nat, p: nat, hi: nat, lower0: real, lowervar: real, halfvar: real) {
    && lo <= p <= hi && p < |s|
    && lower0 + Weight(s, lo, p) <= halfvar < lowervar
    && lowervar == lower0 + Weight(s, lo, p + 1)
    && (p < hi ==> Above(s, lo, p, hi) && Above(s, lo, p + 1, hi))
  }

  /** Adds the weights of [base, base + l] one by one and stops at the first sum that reaches the bound. */
  method SumLeft(a: array<HistItem>, base: nat, l: nat, lowervar: real, halfvar: real)
    returns (tmpsum: real, t: nat)
    requires base + l < a.Length
    ensures t <= l + 1 && tmpsum == lowervar + Weight(a[..], base, base + t)
    ensures tmpsum < halfvar ==> t == l + 1
    ensures forall u | base <= u < base + t :: lowervar + Weight(a[..], base, u) < halfvar
  {
    hide Weight;
    t := 0;
    tmpsum := lowervar;
    WeightEmpty(a[..], base);
    while t <= l && tmpsum < halfvar
      invariant 0 <= t <= l + 1
      invariant tmpsum == lowervar + Weight(a[..], base, base + t)
      invariant forall u | base <= u < base + t :: lowervar + Weight(a[..], base, u) < halfvar
    {
      WeightNext(a[..], base, base + t);
      tmpsum := tmpsum + a[base + t].colorWeight;
      t := t + 1;
    }
  }

  lemma {:induction false} WeightEmpty(s: seq<HistItem>, i: nat)
    requires i <= |s|
    ensures Weight(s, i, i) == 0.0
  {
  }

  /**
   Outcome of the selection on [lo, hi) started with weight lower0 already counted: the crossing item, or
   none when even [lo, hi] stays within the bound; it is inside [lo, hi) whenever that stretch alone passes the bound.
   */
  ghost predicate Selected(origin: seq<HistItem>, s: seq<HistItem>, lo: nat, hi: nat, lower0: real, halfvar: real,
                           res: Option<nat>, lowervar: real)
  {
    && Shuffled(origin, s, lo, hi)
    && (res.Some? ==> Crossing(s, lo, res.value, hi, lower0, lowervar, halfvar))
    && (res.None? ==> hi < |s| && lowervar == lower0 + Weight(s, lo, hi + 1) <= halfvar)
    && (halfvar < lower0 + Weight(s, lo, hi) ==> res.Some? && res.value < hi)
  }

  lemma {:induction false} CrossingLeft(origin: seq<HistItem>, s: seq<HistItem>, lo: nat, base: nat, p: nat,
                                        pivot: nat, hi: nat, lower0: real, lowervar: real, lower1: real,
                                        halfvar: real)
    requires Counted(origin, s, lo, base, hi, lower0, lowervar, halfvar)
    requires base <= pivot < hi && Above(s, lo, pivot, hi) && Above(s, lo, pivot + 1, hi)
    requires Crossing(s, base, p, pivot, lowervar, lower1, halfvar)
    ensures Crossing(s, lo, p, hi, lower0, lower1, halfvar)
  {
    hide Shuffled, Above, Weight;
    WeightSplit(s, lo, base, p);
    WeightSplit(s, lo, base, p + 1);
    if p < pivot {
      AboveExtend(s, lo, base, p, pivot, hi);
      AboveExtend(s, lo, base, p + 1, pivot, hi);
    }
  }

  /** An item found left of the pivot, or the pivot itself, is the crossing of the whole stretch. */
  lemma {:induction false} FoundLeft(origin: seq<HistItem>, t: seq<HistItem>, s: seq<HistItem>, lo: nat, base: nat,
                                     pivot: nat, hi: nat, lower0: real, lowervar: real, halfvar: real,
                                     found: Option<nat>, lower1: real)
    requires Counted(origin, t, lo, base, hi, lower0, lowervar, halfvar)
    requires base <= pivot < hi && Above(t, lo, pivot, hi) && Above(t, lo, pivot + 1, hi)
    requires Selected(t, s, base, pivot, lowervar, halfvar, found, lower1) && found.Some?
    ensures Selected(origin, s, lo, hi, lower0, halfvar, found, lower1)
  {
    hide Above, Weight;
    CountedShuffle(origin, t, s, lo, base, pivot, hi, lower0, lowervar, halfvar);
    AboveShuffled(t, s, lo, pivot, hi, base, pivot);
    AboveShuffled(t, s, lo, pivot + 1, hi, base, pivot);
    CrossingLeft(origin, s, lo, base, found.value, pivot, hi, lower0, lowervar, lower1, halfvar);
  }

  /** When nothing is found left of the pivot, the pivot has been counted too. */
  lemma {:induction false} MissedLeft(origin: seq<HistItem>, t: seq<HistItem>, s: seq<HistItem>, lo: nat, base: nat,
                                      pivot: nat, hi: nat, lower0: real, lowervar: real, halfvar: real, lower1: real)
    requires Counted(origin, t, lo, base, hi, lower0, lowervar, halfvar)
    requires base <= pivot < hi && Above(t, lo, pivot + 1, hi)
    requires Selected(t, s, base, pivot, lowervar, halfvar, None, lower1)
    ensures Counted(origin, s, lo, pivot + 1, hi, lower0, lower1, halfvar) && lower1 <= halfvar
  {
    hide Above, Weight;
    CountedShuffle(origin, t, s, lo, base, pivot, hi, lower0, lowervar, halfvar);
    AboveShuffled(t, s, lo, pivot + 1, hi, base, pivot);
    CountedAdvance(origin, s, lo, base, pivot + 1, hi, lower0, lowervar, lower1, halfvar);
  }

  /** A whole stretch within the bound: the item after it decides. */
  lemma {:induction false} EndOfStretch(origin: seq<HistItem>, s: seq<HistItem>, lo: nat, hi: nat, lower0: real,
                                        lowervar: real, halfvar: real, lower1: real, res: Option<nat>)
    requires Counted(origin, s, lo, hi, hi, lower0, lowervar, halfvar) && hi < |s|
    requires lower1 == lowervar + s[hi].colorWeight
    requires res == if lower1 > halfvar then Some(hi) else None
    ensures Selected(origin, s, lo, hi, lower0, halfvar, res, lower1)
  {
    hide Shuffled, Above, Weight;
    WeightNext(s, lo, hi);
  }

  /** With non-negative weights the crossing lies inside the stretch exactly when the stretch alone passes the bound. */
  lemma {:induction false} SelectedInside(origin: seq<HistItem>, s: seq<HistItem>, lo: nat, hi: nat, lower0: real,
                                          halfvar: real, res: Option<nat>, lowervar: real)
    requires Selected(origin, s, lo, hi, lower0, halfvar, res, lowervar)
    requires forall k | lo <= k < hi :: 0.0 <= s[k].colorWeight
    ensures (res.Some? && res.value < hi) <==> halfvar < lower0 + Weight(s, lo, hi)
  {
    if res.Some? && res.value < hi {
      var p := res.value;
      WeightSplit(s, lo, p + 1, hi);
      assert forall x | x in s[p + 1..hi] :: 0.0 <= WeightOf(x);
      SumNonNegative(WeightOf, s[p + 1..hi]);
    }
  }

  lemma {:induction false} CountedStart(origin: seq<HistItem>, lo: nat, hi: nat, lower0: real, halfvar: real)
    requires lo <= hi <= |origin| && lower0 <= halfvar
    ensures Counted(origin, origin, lo, lo, hi, lower0, lower0, halfvar)
  {
  }

  /** The stretch still has an item after it unless its own weight passes the bound. */
  lemma {:induction false} CountedAll(origin: seq<HistItem>, s: seq<HistItem>, lo: nat, hi: nat, lower0: real,
                                      lowervar: real, halfvar: real)
    requires Counted(origin, s, lo, hi, hi, lower0, lowervar, halfvar)
    requires hi < |origin| || halfvar < lower0 + Weight(origin, lo, hi)
    ensures hi < |s|
  {
    hide Above, Weight;
    WeightShuffled(origin, s, lo, hi, lo, hi);
  }

  method HistItemSortHalfvar(a: array<HistItem>, lo: nat, num: nat, lower0: real, halfvar: real)
    returns (res: Option<nat>, lowervar: real)
    requires 1 <= num && lo + num <= a.Length && lower0 <= halfvar
    requires lo + num < a.Length || halfvar < lower0 + Weight(a[..], lo, lo + num)
    modifies a
    ensures Selected(old(a[..]), a[..], lo, lo + num, lower0, halfvar, res, lowervar)
    decreases num, 1
  {
    hide Above, Weight, Counted, Selected;
    ghost var hi := lo + num;
    ghost var origin := a[..];
    lowervar := lower0;
    CountedStart(origin, lo, hi, lower0, halfvar);
    var base, len := lo, num;
    while true
      invariant lo <= base < hi && base + len == hi && lowervar <= halfvar
      invariant Counted(origin, a[..], lo, base, hi, lower0, lowervar, halfvar)
      decreases len
    {
      ghost var s := a[..];
      var l := PartitionStep(a, base, len, origin, lo, lower0, lowervar, halfvar);
      var r := l + 1;
      ghost var t := a[..];
      var tmpsum, _ := SumLeft(a, base, l, lowervar, halfvar);
      if tmpsum < halfvar {
        CountedAdvance(origin, t, lo, base, base + r, hi, lower0, lowervar, tmpsum, halfvar);
        lowervar := tmpsum;
      } else {
        var found, lower1 := SelectLeft(a, base, l, lowervar, halfvar);
        if found.Some? {
          FoundLeft(origin, t, a[..], lo, base, base + l, hi, lower0, lowervar, halfvar, found, lower1);
          return found, lower1;
        }
        MissedLeft(origin, t, a[..], lo, base, base + l, hi, lower0, lowervar, halfvar, lower1);
        lowervar := lower1;
      }
      if len > r {
        base, len := base + r, len - r;
      } else {
        CountedAll(origin, a[..], lo, hi, lower0, lowervar, halfvar);
        var lower1 := lowervar + a[base + r].colorWeight;
        res := if lower1 > halfvar then Some(base + r) else None;
        EndOfStretch(origin, a[..], lo, hi, lower0, lowervar, halfvar, lower1, res);
        lowervar := lower1;
        return;
      }
    }
  }

  /** One partition of the uncounted part. */
  method PartitionStep(a: array<HistItem>, base: nat, len: nat, ghost origin: seq<HistItem>, ghost lo: nat,
                       ghost lower0: real, ghost lowervar: real, ghost halfvar: real)
    returns (l: nat)
    requires 1 <= len && base + len <= a.Length
    requires Counted(origin, a[..], lo, base, base + len, lower0, lowervar, halfvar)
    modifies a
    ensures l < len
    ensures Counted(origin, a[..], lo, base, base + len, lower0, lowervar, halfvar)
    ensures Above(a[..], lo, base + l, base + len) && Above(a[..], lo, base + l + 1, base + len)
  {
    hide Shuffled, Above, Counted;
    ghost var s := a[..];
    l := QsortPartition(a, base, len);
    CountedShuffle(origin, s, a[..], lo, base, base + len, base + len, lower0, lowervar, halfvar);
    CountedCut(origin, a[..], lo, base, base + l, base + len, lower0, lowervar, halfvar);
    CountedCut(origin, a[..], lo, base, base + l + 1, base + len, lower0, lowervar, halfvar);
  }

  /** The left recursion, whose end looks at the first item alone; the pivot is the item after the stretch. */
  method SelectLeft(a: array<HistItem>, base: nat, l: nat, lower0: real, halfvar: real)
    returns (found: Option<nat>, lowervar: real)
    requires base + l < a.Length && lower0 <= halfvar
    modifies a
    ensures Selected(old(a[..]), a[..], base, base + l, lower0, halfvar, found, lowervar)
    decreases l, 2
  {
    hide Above, Weight, Counted, Selected;
    if l > 0 {
      found, lowervar := HistItemSortHalfvar(a, base, l, lower0, halfvar);
    } else {
      lowervar := lower0 + a[base].colorWeight;
      found := if lowervar > halfvar then Some(base) else None;
      CountedStart(a[..], base, base, lower0, halfvar);
      EndOfStretch(a[..], a[..], base, base, lower0, lower0, halfvar, lowervar, found);
    }
  }
}
