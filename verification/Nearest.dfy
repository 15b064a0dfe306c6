/**
 The vantage-point tree of `nearest.c`: building it in place over an index array,
 searching it with two pruning tests, and the shortcut that skips the search.

 The tree is built once and never changed afterwards, so nodes are values; the index
 array that is reordered while building and the best candidate that is narrowed while
 searching are objects updated in place.
 */
module Nearest {
  import opened ColorMetric
  import opened Permutations

  datatype SortTmp = SortTmp(distanceSquared: real, idx: nat)

  datatype Node = Null | Node(near: Node, far: Node, vantagePoint: Pixel, radius: real, idx: nat)

  /** The candidate a search narrows; `exclude` is an index to skip, or -1. */
  class SearchTmp {
    var distance: real
    var idx: int
    const exclude: int

    constructor (distance: real, idx: int, exclude: int)
      ensures this.distance == distance && this.idx == idx && this.exclude == exclude
    {
      this.distance, this.idx, this.exclude := distance, idx, exclude;
    }
  }

  // ----- tree invariant

  /** Palette indices held by a tree, with multiplicity. */
  ghost function Members(t: Node): multiset<nat> {
    match t
    case Null => multiset{}
    case Node(near, far, _, _, idx) => Members(near) + Members(far) + multiset{idx}
  }

  /** Near subtrees lie within the radius of their vantage point and far subtrees outside it. */
  ghost predicate Separates(t: Node, palette: seq<ColormapItem>) {
    t.Node? ==>
      && t.idx < |palette|
      && t.vantagePoint == palette[t.idx].acolor
      && 0.0 <= t.radius
      && (forall i | i in Members(t.near) ::
            i < |palette| && ColorDifference(t.vantagePoint, palette[i].acolor) <= Sq(t.radius))
      && (forall i | i in Members(t.far) ::
            i < |palette| && Sq(t.radius) <= ColorDifference(t.vantagePoint, palette[i].acolor))
      && Separates(t.near, palette)
      && Separates(t.far, palette)
  }

  /** The distance `vp_search_node` computes between a palette entry and the needle. */
  ghost function Distance(sqrt: real -> real, palette: seq<ColormapItem>, needle: Pixel, i: nat): real
    requires i < |palette|
  {
    sqrt(ColorDifference(palette[i].acolor, needle))
  }

  /**
   The candidate (d0, i0) has been narrowed to (d, i) by looking at `seen`: d is at most d0 and
   at most every distance in `seen`, and it is either unchanged or the distance of a seen entry.
   */
  ghost predicate Narrowed(sqrt: real -> real, palette: seq<ColormapItem>, needle: Pixel, exclude: int,
                           seen: multiset<nat>, d0: real, i0: int, d: real, i: int)
  {
    && d <= d0
    && (forall k | k in seen && k != exclude :: k < |palette| ==> d <= Distance(sqrt, palette, needle, k))
    && ((d == d0 && i == i0)
        || (0 <= i < |palette| && i in seen && i != exclude && d == Distance(sqrt, palette, needle, i)))
  }

  lemma {:induction false} NarrowedTwice(sqrt: real -> real, palette: seq<ColormapItem>, needle: Pixel, exclude: int,
                                         seen: multiset<nat>, more: multiset<nat>, d0: real, i0: int, d1: real,
                                         i1: int, d2: real, i2: int)
    requires Narrowed(sqrt, palette, needle, exclude, seen, d0, i0, d1, i1)
    requires Narrowed(sqrt, palette, needle, exclude, more, d1, i1, d2, i2)
    ensures Narrowed(sqrt, palette, needle, exclude, seen + more, d0, i0, d2, i2)
  {
  }

  // ----- pruning

  /** Two sides of a triangle bound the third from both directions. */
  lemma {:induction false} TriangleSides(sqrt: real -> real, v: Pixel, needle: Pixel, c: Pixel)
    requires IsSquareRoot(sqrt)
    ensures sqrt(ColorDifference(v, c)) <= sqrt(ColorDifference(v, needle)) + sqrt(ColorDifference(c, needle))
    ensures sqrt(ColorDifference(v, needle)) <= sqrt(ColorDifference(v, c)) + sqrt(ColorDifference(c, needle))
  {
    hide ColorDifference, Sq;
    NonNegative(v, c);
    NonNegative(v, needle);
    NonNegative(c, needle);
    Symmetric(c, needle);
    var vc, vn, cn := sqrt(ColorDifference(v, c)), sqrt(ColorDifference(v, needle)), sqrt(ColorDifference(c, needle));
    TriangleInequality(v, needle, c, vn, cn, vc);
    TriangleInequality(v, c, needle, vc, cn, vn);
  }

  lemma {:induction false} RootMonotone(sqrt: real -> real, x: real, r: real)
    requires IsSquareRoot(sqrt) && 0.0 <= x && 0.0 <= r
    ensures x <= Sq(r) <==> sqrt(x) <= r
    ensures Sq(r) <= x <==> r <= sqrt(x)
  {
    hide Sq;
    SqMonotone(sqrt(x), r);
    SqMonotone(r, sqrt(x));
  }

  /** Skipping the far subtree loses nothing once `distance < radius - best`. */
  lemma {:induction false} FarPruned(sqrt: real -> real, t: Node, palette: seq<ColormapItem>, needle: Pixel,
                                     exclude: int, d: real, i: int)
    requires IsSquareRoot(sqrt) && t.Node? && Separates(t, palette)
    requires t.far.Null? || sqrt(ColorDifference(t.vantagePoint, needle)) < t.radius - d
    ensures Narrowed(sqrt, palette, needle, exclude, Members(t.far), d, i, d, i)
  {
    hide ColorDifference, Sq;
    forall k | k in Members(t.far)
      ensures d <= Distance(sqrt, palette, needle, k)
    {
      TriangleSides(sqrt, t.vantagePoint, needle, palette[k].acolor);
      NonNegative(t.vantagePoint, palette[k].acolor);
      RootMonotone(sqrt, ColorDifference(t.vantagePoint, palette[k].acolor), t.radius);
    }
  }

  /** Skipping the near subtree loses nothing once `distance > radius + best`. */
  lemma {:induction false} NearPruned(sqrt: real -> real, t: Node, palette: seq<ColormapItem>, needle: Pixel,
                                      exclude: int, d: real, i: int)
    requires IsSquareRoot(sqrt) && t.Node? && Separates(t, palette)
    requires t.near.Null? || sqrt(ColorDifference(t.vantagePoint, needle)) > t.radius + d
    ensures Narrowed(sqrt, palette, needle, exclude, Members(t.near), d, i, d, i)
  {
    hide ColorDifference, Sq;
    forall k | k in Members(t.near)
      ensures d <= Distance(sqrt, palette, needle, k)
    {
      TriangleSides(sqrt, t.vantagePoint, needle, palette[k].acolor);
      NonNegative(t.vantagePoint, palette[k].acolor);
      RootMonotone(sqrt, ColorDifference(t.vantagePoint, palette[k].acolor), t.radius);
    }
  }

  // ----- search

  lemma {:induction false} NothingSeen(sqrt: real -> real, palette: seq<ColormapItem>, needle: Pixel, exclude: int,
                                       d: real, i: int)
    ensures Narrowed(sqrt, palette, needle, exclude, multiset{}, d, i, d, i)
  {
  }

  lemma {:induction false} VantageSeen(sqrt: real -> real, t: Node, palette: seq<ColormapItem>, needle: Pixel,
                                       exclude: int, d0: real, i0: int, d: real, i: int)
    requires t.Node? && Separates(t, palette)
    requires var distance := sqrt(ColorDifference(t.vantagePoint, needle));
      if distance < d0 && exclude != t.idx then d == distance && i == t.idx else d == d0 && i == i0
    ensures Narrowed(sqrt, palette, needle, exclude, multiset{t.idx}, d0, i0, d, i)
  {
  }

  lemma {:induction false} ChildrenSeparate(t: Node, palette: seq<ColormapItem>)
    requires t.Node? && Separates(t, palette)
    ensures Separates(t.near, palette) && Separates(t.far, palette)
  {
  }

  lemma {:induction false} MembersRegroup(seen: multiset<nat>, t: Node, all: multiset<nat>)
    requires t.Node? && seen + Members(t) == all
    ensures seen + multiset{t.idx} + Members(t.near) + Members(t.far) == all
    ensures seen + multiset{t.idx} + Members(t.far) + Members(t.near) == all
  {
  }

  lemma {:induction false} NoMembers()
    ensures Members(Null) == multiset{}
  {
  }

  method VpSearchNode(sqrt: real -> real, root: Node, needle: Pixel, best: SearchTmp, ghost palette: seq<ColormapItem>)
    requires IsSquareRoot(sqrt)
    requires root.Node? && Separates(root, palette)
    modifies best
    ensures Narrowed(sqrt, palette, needle, best.exclude, Members(root),
                     old(best.distance), old(best.idx), best.distance, best.idx)
    decreases root
  {
    hide IsSquareRoot, ColorDifference, Sq, Separates, Narrowed, Distance, Members;
    var node := root;
    ghost var seen: multiset<nat> := multiset{};
    ghost var d0, i0 := best.distance, best.idx;
    NothingSeen(sqrt, palette, needle, best.exclude, d0, i0);
    NoMembers();
    while true
      invariant node.Node? && Separates(node, palette)
      invariant node == root || node < root
      invariant seen + Members(node) == Members(root)
      invariant Narrowed(sqrt, palette, needle, best.exclude, seen, d0, i0, best.distance, best.idx)
      decreases node
    {
      var distance := sqrt(ColorDifference(node.vantagePoint, needle));
      ghost var d1, i1 := best.distance, best.idx;
      if distance < best.distance && best.exclude != node.idx {
        best.distance := distance;
        best.idx := node.idx;
      }
      ghost var d2, i2 := best.distance, best.idx;
      ChildrenSeparate(node, palette);
      MembersRegroup(seen, node, Members(root));
      VantageSeen(sqrt, node, palette, needle, best.exclude, d1, i1, d2, i2);
      NarrowedTwice(sqrt, palette, needle, best.exclude, seen, multiset{node.idx}, d0, i0, d1, i1, d2, i2);
      seen := seen + multiset{node.idx};

      if distance < node.radius {
        if node.near.Node? {
          VpSearchNode(sqrt, node.near, needle, best, palette);
        } else {
          NothingSeen(sqrt, palette, needle, best.exclude, d2, i2);
        }
        NarrowedTwice(sqrt, palette, needle, best.exclude, seen, Members(node.near),
                      d0, i0, d2, i2, best.distance, best.idx);
        seen := seen + Members(node.near);
        if node.far.Node? && distance >= node.radius - best.distance {
          node := node.far;
        } else {
          FarPruned(sqrt, node, palette, needle, best.exclude, best.distance, best.idx);
          NarrowedTwice(sqrt, palette, needle, best.exclude, seen, Members(node.far),
                        d0, i0, best.distance, best.idx, best.distance, best.idx);
          seen := seen + Members(node.far);
          break;
        }
      } else {
        if node.far.Node? {
          VpSearchNode(sqrt, node.far, needle, best, palette);
        } else {
          NothingSeen(sqrt, palette, needle, best.exclude, d2, i2);
        }
        NarrowedTwice(sqrt, palette, needle, best.exclude, seen, Members(node.far),
                      d0, i0, d2, i2, best.distance, best.idx);
        seen := seen + Members(node.far);
        if node.near.Node? && distance <= node.radius + best.distance {
          node := node.near;
        } else {
          NearPruned(sqrt, node, palette, needle, best.exclude, best.distance, best.idx);
          NarrowedTwice(sqrt, palette, needle, best.exclude, seen, Members(node.near),
                        d0, i0, best.distance, best.idx, best.distance, best.idx);
          seen := seen + Members(node.near);
          break;
        }
      }
    }
  }

  // ----- building the tree

  function IdxOf(e: SortTmp): nat {
    e.idx
  }

  /** Palette indices named by a stretch of the work array, with multiplicity. */
  ghost function Indices(s: seq<SortTmp>): multiset<nat> {
    multiset(Map(IdxOf, s))
  }

  lemma {:induction false} IndicesConcat(s: seq<SortTmp>, t: seq<SortTmp>)
    ensures Indices(s + t) == Indices(s) + Indices(t)
  {
    MapConcat(IdxOf, s, t);
  }

  /** Overwriting entry r by the last one and dropping the last removes exactly entry r. */
  lemma {:induction false} IndicesRemove(s: seq<SortTmp>, r: nat)
    requires r < |s|
    ensures Indices(s) == Indices(s[r := s[|s| - 1]][..|s| - 1]) + multiset{s[r].idx}
  {
    var m := Map(IdxOf, s);
    var n := |s| - 1;
    var rest := m[r := m[n]][..n];
    assert Map(IdxOf, s[r := s[n]][..n]) == rest;
    assert m[r := m[n]] == rest + [m[n]];
    assert multiset(rest) + multiset{m[n]} == multiset(m[r := m[n]]) == multiset(m) - multiset{m[r]} + multiset{m[n]};
    MultisetCancel(multiset(rest), multiset(m) - multiset{m[r]}, m[n]);
    assert m[r] in multiset(m);
  }

  function DistanceOf(e: SortTmp): real {
    e.distanceSquared
  }

  /** Each entry carries the squared distance of its palette colour from the vantage point. */
  ghost predicate Measured(s: seq<SortTmp>, v: Pixel, items: seq<ColormapItem>) {
    forall e | e in s :: e.idx < |items| && e.distanceSquared == ColorDifference(v, items[e.idx].acolor)
  }

  /** The C library's sort on one stretch of the work array. */
  method Qsort(indexes: array<SortTmp>, lo: nat, num: nat)
    requires lo + num <= indexes.Length
    modifies indexes
    ensures forall k | 0 <= k < lo || lo + num <= k < indexes.Length :: indexes[k] == old(indexes[k])
    ensures SortOf(DistanceOf, old(indexes[lo..lo + num]), indexes[lo..lo + num])
  {
    hide Ascending;
    var unsorted := indexes[lo..lo + num];
    ghost var _ := SortExists(DistanceOf, unsorted);
    var sorted: seq<SortTmp> :| SortOf(DistanceOf, unsorted, sorted);
    assert SortOf(DistanceOf, unsorted, sorted);
    for i := 0 to num
      invariant forall k | 0 <= k < lo || lo + num <= k < indexes.Length :: indexes[k] == old(indexes[k])
      invariant forall k | lo <= k < lo + i :: indexes[k] == sorted[k - lo]
    {
      indexes[lo + i] := sorted[i];
    }
    assert indexes[lo..lo + num] == sorted;
  }

  method VpSortIndexesByDistance(v: Pixel, indexes: array<SortTmp>, lo: nat, num: nat, items: seq<ColormapItem>)
    requires lo + num <= indexes.Length
    requires forall k | lo <= k < lo + num :: indexes[k].idx < |items|
    modifies indexes
    ensures forall k | 0 <= k < lo || lo + num <= k < indexes.Length :: indexes[k] == old(indexes[k])
    ensures Indices(indexes[lo..lo + num]) == old(Indices(indexes[lo..lo + num]))
    ensures Measured(indexes[lo..lo + num], v, items) && Ascending(DistanceOf, indexes[lo..lo + num])
  {
    hide ColorDifference;
    ghost var before := indexes[lo..lo + num];
    for i := 0 to num
      invariant forall k | 0 <= k < lo || lo + num <= k < indexes.Length :: indexes[k] == old(indexes[k])
      invariant forall k | lo <= k < lo + num :: indexes[k].idx == before[k - lo].idx
      invariant forall k | lo <= k < lo + i ::
                  indexes[k].distanceSquared == ColorDifference(v, items[indexes[k].idx].acolor)
    {
      indexes[lo + i] := SortTmp(ColorDifference(v, items[indexes[lo + i].idx].acolor), indexes[lo + i].idx);
    }
    ghost var measured := indexes[lo..lo + num];
    assert Map(IdxOf, measured) == Map(IdxOf, before);
    Qsort(indexes, lo, num);
    MapPermute(IdxOf, measured, indexes[lo..lo + num]);
    MeasuredPermute(measured, indexes[lo..lo + num], v, items);
  }

  lemma {:induction false} MeasuredPermute(s: seq<SortTmp>, t: seq<SortTmp>, v: Pixel, items: seq<ColormapItem>)
    requires Measured(s, v, items) && multiset(s) == multiset(t)
    ensures Measured(t, v, items)
  {
    hide ColorDifference;
    SameElements(s, t);
  }

  /** First position of the most popular entry. */
  method VpFindBestVantagePointIndex(indexes: array<SortTmp>, lo: nat, num: nat, items: seq<ColormapItem>)
    returns (best: nat)
    requires 0 < num && lo + num <= indexes.Length
    requires forall k | lo <= k < lo + num :: indexes[k].idx < |items|
    ensures lo <= best < lo + num
    ensures forall k | lo <= k < lo + num :: items[indexes[k].idx].popularity <= items[indexes[best].idx].popularity
    ensures forall k | lo <= k < best :: items[indexes[k].idx].popularity < items[indexes[best].idx].popularity
  {
    best := lo;
    var bestPopularity := items[indexes[lo].idx].popularity;
    for i := lo + 1 to lo + num
      invariant lo <= best < i && bestPopularity == items[indexes[best].idx].popularity
      invariant forall k | lo <= k < i :: items[indexes[k].idx].popularity <= bestPopularity
      invariant forall k | lo <= k < best :: items[indexes[k].idx].popularity < bestPopularity
    {
      if items[indexes[i].idx].popularity > bestPopularity {
        bestPopularity := items[indexes[i].idx].popularity;
        best := i;
      }
    }
  }

  /**
   A split at the median of the sorted distances puts every near index inside and every far one outside the radius.
   */
  lemma {:induction false} MedianSplit(s: seq<SortTmp>, half: nat, v: Pixel, items: seq<ColormapItem>, radius: real)
    requires half < |s| && Measured(s, v, items) && Ascending(DistanceOf, s) && Sq(radius) == s[half].distanceSquared
    ensures forall i | i in Indices(s[..half]) :: i < |items| && ColorDifference(v, items[i].acolor) <= Sq(radius)
    ensures forall i | i in Indices(s[half..]) :: i < |items| && Sq(radius) <= ColorDifference(v, items[i].acolor)
  {
  }

  /** Two subtrees over the halves of a sorted stretch make a separating tree over the whole. */
  lemma {:induction false} JoinHalves(near: Node, far: Node, s: seq<SortTmp>, half: nat, refIdx: nat,
                                      items: seq<ColormapItem>, radius: real)
    requires refIdx < |items| && half < |s|
    requires Measured(s, items[refIdx].acolor, items) && Ascending(DistanceOf, s)
    requires 0.0 <= radius && Sq(radius) == s[half].distanceSquared
    requires Members(near) == Indices(s[..half]) && Separates(near, items)
    requires Members(far) == Indices(s[half..]) && Separates(far, items)
    ensures Separates(Node(near, far, items[refIdx].acolor, radius, refIdx), items)
    ensures Members(Node(near, far, items[refIdx].acolor, radius, refIdx)) == Indices(s) + multiset{refIdx}
  {
    hide ColorDifference, Sq, Indices, Ascending, Measured, Separates, Members;
    MedianSplit(s, half, items[refIdx].acolor, items, radius);
    SeparatesNode(near, far, items[refIdx].acolor, radius, refIdx, items);
    MembersNode(near, far, items[refIdx].acolor, radius, refIdx);
    IndicesSplit(s, half);
  }

  lemma {:induction false} MembersNode(near: Node, far: Node, v: Pixel, radius: real, idx: nat)
    ensures Members(Node(near, far, v, radius, idx)) == Members(near) + Members(far) + multiset{idx}
  {
  }

  lemma {:induction false} SeparatesNode(near: Node, far: Node, v: Pixel, radius: real, idx: nat,
                                         items: seq<ColormapItem>)
    requires idx < |items| && v == items[idx].acolor && 0.0 <= radius
    requires Separates(near, items) && Separates(far, items)
    requires forall i | i in Members(near) :: i < |items| && ColorDifference(v, items[i].acolor) <= Sq(radius)
    requires forall i | i in Members(far) :: i < |items| && Sq(radius) <= ColorDifference(v, items[i].acolor)
    ensures Separates(Node(near, far, v, radius, idx), items)
  {
    hide ColorDifference, Sq, Members;
  }

  lemma {:induction false} IndicesSplit(s: seq<SortTmp>, half: nat)
    requires half <= |s|
    ensures Indices(s) == Indices(s[..half]) + Indices(s[half..])
  {
    hide Indices;
    IndicesConcat(s[..half], s[half..]);
    assert s == s[..half] + s[half..];
  }

  /** Every index of the stretch enters the tree exactly once, and the tree separates near from far. */
  method VpCreateNode(sqrt: real -> real, indexes: array<SortTmp>, lo: nat, num: nat, items: seq<ColormapItem>)
    returns (node: Node)
    requires IsSquareRoot(sqrt)
    requires lo + num <= indexes.Length
    requires forall k | lo <= k < lo + num :: indexes[k].idx < |items|
    modifies indexes
    ensures forall k | 0 <= k < lo || lo + num <= k < indexes.Length :: indexes[k] == old(indexes[k])
    ensures node.Null? <==> num == 0
    ensures Members(node) == old(Indices(indexes[lo..lo + num]))
    ensures Separates(node, items)
    decreases num, 2
  {
    hide ColorDifference, Sq, Indices;
    ghost var before := indexes[lo..lo + num];
    if num == 0 {
      NoIndices();
      assert before == [];
      return Null;
    }
    if num == 1 {
      LoneIndex(before[0]);
      assert before == [before[0]];
      return Node(Null, Null, items[indexes[lo].idx].acolor, MAX_DIFF, indexes[lo].idx);
    }
    node := VpSplitNode(sqrt, indexes, lo, num, items);
  }

  /** Takes the vantage point out of the stretch and sorts the others by their distance from it. */
  method VpPickAndSort(indexes: array<SortTmp>, lo: nat, num: nat, items: seq<ColormapItem>) returns (refIdx: nat)
    requires 1 <= num && lo + num <= indexes.Length
    requires forall k | lo <= k < lo + num :: indexes[k].idx < |items|
    modifies indexes
    ensures forall k | 0 <= k < lo || lo + num <= k < indexes.Length :: indexes[k] == old(indexes[k])
    ensures refIdx < |items|
    ensures Indices(indexes[lo..lo + num - 1]) + multiset{refIdx} == old(Indices(indexes[lo..lo + num]))
    ensures Measured(indexes[lo..lo + num - 1], items[refIdx].acolor, items)
    ensures Ascending(DistanceOf, indexes[lo..lo + num - 1])
  {
    hide ColorDifference, Indices;
    ghost var before := indexes[lo..lo + num];
    var ref := VpFindBestVantagePointIndex(indexes, lo, num, items);
    refIdx := indexes[ref].idx;
    var n := num - 1;
    indexes[ref] := indexes[lo + n];
    ghost var rest := indexes[lo..lo + n];
    IndicesRemove(before, ref - lo);
    assert rest == before[ref - lo := before[n]][..n];
    VpSortIndexesByDistance(items[refIdx].acolor, indexes, lo, n, items);
  }

  /** The case of two or more indices: recurse on the two halves around the median distance. */
  method VpSplitNode(sqrt: real -> real, indexes: array<SortTmp>, lo: nat, num: nat, items: seq<ColormapItem>)
    returns (node: Node)
    requires IsSquareRoot(sqrt)
    requires 2 <= num && lo + num <= indexes.Length
    requires forall k | lo <= k < lo + num :: indexes[k].idx < |items|
    modifies indexes
    ensures forall k | 0 <= k < lo || lo + num <= k < indexes.Length :: indexes[k] == old(indexes[k])
    ensures node.Node?
    ensures Members(node) == old(Indices(indexes[lo..lo + num]))
    ensures Separates(node, items)
    decreases num, 1
  {
    hide ColorDifference, Sq, Indices, Members, Separates, Ascending;
    var refIdx := VpPickAndSort(indexes, lo, num, items);
    var n := num - 1;
    var half := n / 2;
    ghost var sorted := indexes[lo..lo + n];
    MeasuredAt(sorted, items[refIdx].acolor, items, half);
    var radius := sqrt(indexes[lo + half].distanceSquared);
    assert forall k | lo <= k < lo + n :: indexes[k] in sorted;
    var near, far := VpCreateHalves(sqrt, indexes, lo, half, n, items, sorted);
    JoinHalves(near, far, sorted, half, refIdx, items, radius);
    node := Node(near, far, items[refIdx].acolor, radius, refIdx);
  }

  lemma {:induction false} MeasuredAt(s: seq<SortTmp>, v: Pixel, items: seq<ColormapItem>, k: nat)
    requires Measured(s, v, items) && k < |s|
    ensures s[k].idx < |items| && 0.0 <= s[k].distanceSquared
  {
    hide ColorDifference;
    assert s[k] in s;
    NonNegative(v, items[s[k].idx].acolor);
  }

  method VpCreateHalves(sqrt: real -> real, indexes: array<SortTmp>, lo: nat, half: nat, n: nat,
                        items: seq<ColormapItem>, ghost sorted: seq<SortTmp>)
    returns (near: Node, far: Node)
    requires IsSquareRoot(sqrt)
    requires half < n && lo + n <= indexes.Length && sorted == indexes[lo..lo + n]
    requires forall k | lo <= k < lo + n :: indexes[k].idx < |items|
    modifies indexes
    ensures forall k | 0 <= k < lo || lo + n <= k < indexes.Length :: indexes[k] == old(indexes[k])
    ensures Members(near) == Indices(sorted[..half]) && Separates(near, items)
    ensures Members(far) == Indices(sorted[half..]) && Separates(far, items)
    decreases n + 1, 0
  {
    hide Indices, Members, Separates;
    assert forall k | lo <= k < lo + n :: indexes[k] == sorted[k - lo];
    assert indexes[lo..lo + half] == sorted[..half];
    near := VpCreateNode(sqrt, indexes, lo, half, items);
    assert forall k | lo + half <= k < lo + n :: indexes[k] == sorted[k - lo];
    assert indexes[lo + half..lo + n] == sorted[half..];
    far := VpCreateNode(sqrt, indexes, lo + half, n - half, items);
  }

  lemma {:induction false} NoIndices()
    ensures Indices([]) == multiset{}
  {
  }

  lemma {:induction false} LoneIndex(e: SortTmp)
    ensures Indices([e]) == multiset{e.idx}
  {
  }

  // ----- the handle

  /** The multiset holds each of the first n naturals exactly once. */
  ghost predicate EachOnce(m: multiset<nat>, n: nat) {
    forall i: nat :: m[i] == if i < n then 1 else 0
  }

  ghost function Iota(n: nat): seq<nat> {
    if n == 0 then [] else Iota(n - 1) + [n - 1]
  }

  lemma {:induction false} IotaLaws(n: nat)
    ensures |Iota(n)| == n && forall k | 0 <= k < n :: Iota(n)[k] == k
    ensures EachOnce(multiset(Iota(n)), n)
  {
    if n > 0 {
      IotaLaws(n - 1);
    }
  }

  /** x is the smallest squared distance from entry i to another entry, capped at MAX_DIFF squared. */
  ghost predicate OtherDistance(palette: seq<ColormapItem>, i: nat, x: real)
    requires i < |palette|
  {
    && x <= Sq(MAX_DIFF)
    && (forall j | 0 <= j < |palette| && j != i :: x <= ColorDifference(palette[j].acolor, palette[i].acolor))
    && (x == Sq(MAX_DIFF)
        || exists j | 0 <= j < |palette| && j != i :: x == ColorDifference(palette[j].acolor, palette[i].acolor))
  }

  class NearestMap {
    const root: Node
    const palette: seq<ColormapItem>
    const nearestOtherColorDist: array<real>

    ghost predicate Valid()
      reads nearestOtherColorDist
    {
      && |palette| <= nearestOtherColorDist.Length
      && Separates(root, palette)
      && (root.Null? <==> palette == [])
      && EachOnce(Members(root), |palette|)
      && (forall i | 0 <= i < |palette| :: OtherDistance(palette, i, 4.0 * nearestOtherColorDist[i]))
    }

    constructor (root: Node, palette: seq<ColormapItem>)
      ensures this.root == root && this.palette == palette
      ensures fresh(nearestOtherColorDist) && nearestOtherColorDist.Length == 256
    {
      this.root, this.palette := root, palette;
      nearestOtherColorDist := new real[256];
    }
  }

  /** A search from MAX_DIFF that skips entry i itself ends at its distance from the nearest other entry. */
  lemma {:induction false} ExcludedSearch(sqrt: real -> real, root: Node, palette: seq<ColormapItem>, i: nat,
                                          d: real, idx: int, quarter: real)
    requires IsSquareRoot(sqrt) && i < |palette|
    requires EachOnce(Members(root), |palette|)
    requires Narrowed(sqrt, palette, palette[i].acolor, i, Members(root), MAX_DIFF, 0, d, idx)
    requires quarter == d * d / 4.0
    ensures OtherDistance(palette, i, 4.0 * quarter)
  {
    hide ColorDifference, Sq;
    forall j | 0 <= j < |palette| && j != i
      ensures Sq(d) <= ColorDifference(palette[j].acolor, palette[i].acolor)
    {
      NonNegative(palette[j].acolor, palette[i].acolor);
      assert Members(root)[j] == 1;
      assert d <= Distance(sqrt, palette, palette[i].acolor, j);
      NarrowedNonNegative(sqrt, palette, palette[i].acolor, i, Members(root), MAX_DIFF, 0, d, idx);
      RootMonotone(sqrt, ColorDifference(palette[j].acolor, palette[i].acolor), d);
    }
    NarrowedNonNegative(sqrt, palette, palette[i].acolor, i, Members(root), MAX_DIFF, 0, d, idx);
    SqMonotone(d, MAX_DIFF);
    if d != MAX_DIFF {
      NonNegative(palette[idx].acolor, palette[i].acolor);
    }
    SqUnfold(d);
    assert 4.0 * quarter == Sq(d);
  }

  lemma {:induction false} SqUnfold(d: real)
    ensures Sq(d) == d * d
  {
  }

  lemma {:induction false} NarrowedNonNegative(sqrt: real -> real, palette: seq<ColormapItem>, needle: Pixel,
                                               exclude: int, seen: multiset<nat>, d0: real, i0: int, d: real, i: int)
    requires IsSquareRoot(sqrt) && 0.0 <= d0
    requires Narrowed(sqrt, palette, needle, exclude, seen, d0, i0, d, i)
    ensures 0.0 <= d
  {
    hide ColorDifference, Sq;
    if d != d0 {
      NonNegative(palette[i].acolor, needle);
    }
  }

  /** A quarter of the squared distance from entry i to the nearest other entry. */
  method NearestOther(sqrt: real -> real, root: Node, palette: seq<ColormapItem>, i: nat) returns (quarter: real)
    requires IsSquareRoot(sqrt) && i < |palette|
    requires root.Node? && Separates(root, palette)
    requires EachOnce(Members(root), |palette|)
    ensures OtherDistance(palette, i, 4.0 * quarter)
  {
    hide ColorDifference, Sq, Separates, Narrowed, Members, OtherDistance, EachOnce;
    var best := new SearchTmp(MAX_DIFF, 0, i);
    VpSearchNode(sqrt, root, palette[i].acolor, best, palette);
    quarter := best.distance * best.distance / 4.0;
    ExcludedSearch(sqrt, root, palette, i, best.distance, best.idx, quarter);
  }

  /** The tree over a whole palette holds every palette index exactly once. */
  method BuildTree(sqrt: real -> real, palette: seq<ColormapItem>) returns (root: Node)
    requires IsSquareRoot(sqrt)
    ensures Separates(root, palette) && EachOnce(Members(root), |palette|)
    ensures root.Null? <==> palette == []
  {
    hide ColorDifference, Separates, Members, EachOnce;
    var n := |palette|;
    var indexes := new SortTmp[n];
    for i := 0 to n
      invariant forall k | 0 <= k < i :: indexes[k].idx == k
    {
      indexes[i] := SortTmp(0.0, i);
    }
    IotaLaws(n);
    assert Map(IdxOf, indexes[0..n]) == Iota(n);
    root := VpCreateNode(sqrt, indexes, 0, n, palette);
  }

  method NearestInit(sqrt: real -> real, palette: seq<ColormapItem>) returns (handle: NearestMap)
    requires IsSquareRoot(sqrt) && |palette| <= 256
    ensures fresh(handle) && fresh(handle.nearestOtherColorDist)
    ensures handle.palette == palette && handle.Valid()
  {
    hide IsSquareRoot, ColorDifference, Sq, Separates, Members, OtherDistance, EachOnce;
    var root := BuildTree(sqrt, palette);
    handle := new NearestMap(root, palette);
    var dist := handle.nearestOtherColorDist;
    for i := 0 to |palette|
      invariant forall k | 0 <= k < i :: OtherDistance(palette, k, 4.0 * dist[k])
    {
      var quarter := NearestOther(sqrt, root, palette, i);
      dist[i] := quarter;
    }
  }

  // ----- nearest colour

  /** No palette entry is closer to the pixel than entry i. */
  ghost predicate IsNearest(palette: seq<ColormapItem>, px: Pixel, i: nat) {
    i < |palette| && forall j | 0 <= j < |palette| ::
      ColorDifference(palette[i].acolor, px) <= ColorDifference(palette[j].acolor, px)
  }

  /** A guess closer than half way to its nearest neighbour in the palette is the nearest entry. */
  lemma {:induction false} ShortcutSound(sqrt: real -> real, palette: seq<ColormapItem>, px: Pixel, guess: nat,
                                         other: real)
    requires IsSquareRoot(sqrt) && guess < |palette| && OtherDistance(palette, guess, 4.0 * other)
    requires ColorDifference(palette[guess].acolor, px) < other
    ensures IsNearest(palette, px, guess)
  {
    hide ColorDifference, Sq;
    var g := palette[guess].acolor;
    forall j | 0 <= j < |palette|
      ensures ColorDifference(g, px) <= ColorDifference(palette[j].acolor, px)
    {
      var c := palette[j].acolor;
      if j != guess {
        NonNegative(g, px);
        NonNegative(c, px);
        NonNegative(c, g);
        var gp, cp, cg := sqrt(ColorDifference(g, px)), sqrt(ColorDifference(c, px)), sqrt(ColorDifference(c, g));
        DoubleSq(gp);
        SqMonotone(2.0 * gp, cg);
        Symmetric(g, px);
        TriangleInequality(c, px, g, cp, gp, cg);
        SqMonotone(gp, cp);
      }
    }
  }

  lemma {:induction false} DoubleSq(x: real)
    ensures Sq(2.0 * x) == 4.0 * Sq(x)
  {
  }

  /** A search of the whole tree from a guess ends at the nearest entry. */
  lemma {:induction false} FullSearch(sqrt: real -> real, root: Node, palette: seq<ColormapItem>, px: Pixel,
                                      guess: nat, d: real, i: int)
    requires IsSquareRoot(sqrt) && guess < |palette|
    requires EachOnce(Members(root), |palette|)
    requires Narrowed(sqrt, palette, px, -1, Members(root), Distance(sqrt, palette, px, guess), guess, d, i)
    ensures 0 <= i < |palette| && IsNearest(palette, px, i) && d * d == ColorDifference(palette[i].acolor, px)
  {
    hide ColorDifference, Sq;
    assert d == Distance(sqrt, palette, px, i);
    NonNegative(palette[i].acolor, px);
    SqUnfold(d);
    forall j | 0 <= j < |palette|
      ensures ColorDifference(palette[i].acolor, px) <= ColorDifference(palette[j].acolor, px)
    {
      assert Members(root)[j] == 1;
      assert d <= Distance(sqrt, palette, px, j);
      NonNegative(palette[j].acolor, px);
      RootMonotone(sqrt, ColorDifference(palette[j].acolor, px), d);
    }
  }

  method NearestSearch(sqrt: real -> real, handle: NearestMap, px: Pixel, likelyColormapIndex: nat)
    returns (idx: nat, diff: real)
    requires IsSquareRoot(sqrt) && handle.Valid() && likelyColormapIndex < |handle.palette|
    ensures IsNearest(handle.palette, px, idx)
    ensures diff == ColorDifference(handle.palette[idx].acolor, px)
  {
    hide ColorDifference, Sq, Separates, Narrowed, Members, OtherDistance, IsNearest, EachOnce;
    var palette := handle.palette;
    var guessDiff := ColorDifference(palette[likelyColormapIndex].acolor, px);
    if guessDiff < handle.nearestOtherColorDist[likelyColormapIndex] {
      ShortcutSound(sqrt, palette, px, likelyColormapIndex, handle.nearestOtherColorDist[likelyColormapIndex]);
      return likelyColormapIndex, guessDiff;
    }
    var best := new SearchTmp(sqrt(guessDiff), likelyColormapIndex, -1);
    VpSearchNode(sqrt, handle.root, px, best, palette);
    FullSearch(sqrt, handle.root, palette, px, likelyColormapIndex, best.distance, best.idx);
    return best.idx, best.distance * best.distance;
  }
}
