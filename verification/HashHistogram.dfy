/**
 Flattening the colour hash into the histogram that median cut works on: every stored colour
 of non-zero weight becomes one item, and the buffer sized by `colors` is never overrun.
 */
module HashHistogram {
  import opened Basics
  import opened Sectors
  import opened ColorHash
  import opened ColorMetric
  import HistSort
  import P = Permutations

  // ----- specification

  /** Contents of the first n buckets, in order. */
  ghost function AllItems(buckets: seq<Head>, mem: Memory, n: nat): seq<Item>
    requires n <= |buckets| && BucketsOk(buckets, mem)
  {
    if n == 0 then [] else
      assert BucketOk(buckets[n - 1], mem, n - 1, |buckets|);
      AllItems(buckets, mem, n - 1) + Items(buckets[n - 1], mem)
  }

  /** Colours of weight zero are dropped. */
  function Kept(items: seq<Item>): (r: seq<Item>)
    ensures |r| <= |items|
  {
    if items == [] then [] else
      Kept(items[..|items| - 1]) + if items[|items| - 1].weight != 0 then [items[|items| - 1]] else []
  }

  function Capped(maxWeight: real): Item -> real {
    (it: Item) => if it.weight as real / 128.0 < maxWeight then it.weight as real / 128.0 else maxWeight
  }

  /** A weight is a 128th of the sum of boosts, but never more than the cap. */
  lemma {:induction false} CappedLaws(maxWeight: real, it: Item)
    ensures var w := Capped(maxWeight)(it);
      w <= maxWeight && w * 128.0 <= it.weight as real && (w == maxWeight || w * 128.0 == it.weight as real)
  {
  }

  ghost predicate ItemOf(h: HistSort.HistItem, it: Item, toF: nat -> Pixel, maxWeight: real) {
    h.acolor == toF(it.color) && h.adjustedWeight == h.perceptualWeight == Capped(maxWeight)(it)
  }

  // ----- laws

  lemma {:induction false} AllItemsCount(buckets: seq<Head>, mem: Memory, n: nat)
    requires n <= |buckets| && BucketsOk(buckets, mem)
    ensures |AllItems(buckets, mem, n)| == UsedSum(buckets[..n])
  {
    hide BucketsOk;
    if n > 0 {
      AllItemsCount(buckets, mem, n - 1);
      assert buckets[..n][..n - 1] == buckets[..n - 1];
    }
  }

  lemma {:induction false} UsedSumPrefix(buckets: seq<Head>, n: nat)
    requires n <= |buckets|
    ensures UsedSum(buckets[..n]) <= UsedSum(buckets)
  {
    if n < |buckets| {
      UsedSumPrefix(buckets[..|buckets| - 1], n);
      assert buckets[..|buckets| - 1][..n] == buckets[..n];
    } else {
      assert buckets[..n] == buckets;
    }
  }

  /** Where a stored item comes from. */
  lemma {:induction false} ItemOrigin(buckets: seq<Head>, mem: Memory, n: nat, it: Item)
    requires n <= |buckets| && BucketsOk(buckets, mem)
    ensures it in AllItems(buckets, mem, n) <==>
      exists b | 0 <= b < n :: HeadOk(buckets[b], mem) && it in Items(buckets[b], mem)
  {
    hide BucketsOk, Items, HeadOk;
    if n > 0 {
      ItemOrigin(buckets, mem, n - 1, it);
      BucketAt(buckets, mem, n - 1);
    }
  }

  lemma {:induction false} BucketAt(buckets: seq<Head>, mem: Memory, b: nat)
    requires b < |buckets| && BucketsOk(buckets, mem)
    ensures BucketOk(buckets[b], mem, b, |buckets|) && HeadOk(buckets[b], mem)
    ensures forall it | it in Items(buckets[b], mem) :: it.color % |buckets| == b
  {
  }

  lemma {:induction false} KeptMember(items: seq<Item>, it: Item)
    ensures it in Kept(items) <==> it in items && it.weight != 0
  {
    if items != [] {
      KeptMember(items[..|items| - 1], it);
      assert items == items[..|items| - 1] + [items[|items| - 1]];
    }
  }

  /** The histogram holds a colour with a weight exactly when the table stands for it and the weight is not zero. */
  lemma {:induction false} HistogramHolds(buckets: seq<Head>, mem: Memory, c: nat, w: nat)
    requires 0 < |buckets| && BucketsOk(buckets, mem)
    ensures Item(c, w) in Kept(AllItems(buckets, mem, |buckets|)) <==> Lookup(buckets, mem, c) == Some(w) && w != 0
  {
    hide BucketsOk, AllItems, Kept;
    var b := c % |buckets|;
    KeptMember(AllItems(buckets, mem, |buckets|), Item(c, w));
    ItemOrigin(buckets, mem, |buckets|, Item(c, w));
    BucketAt(buckets, mem, b);
    StoredWeight(Items(buckets[b], mem), c, w);
    if Item(c, w) in AllItems(buckets, mem, |buckets|) {
      var i :| 0 <= i < |buckets| && HeadOk(buckets[i], mem) && Item(c, w) in Items(buckets[i], mem);
      BucketAt(buckets, mem, i);
    }
  }

  lemma {:induction false} StoredWeight(items: seq<Item>, c: nat, w: nat)
    requires DistinctColors(items)
    ensures WeightIn(items, c) == Some(w) <==> Item(c, w) in items
  {
    hide WeightIn;
    if k :| 0 <= k < |items| && items[k].color == c {
      WeightFound(items, k);
    } else {
      WeightMissing(items, c);
    }
  }

  /** No colour appears twice. */
  lemma {:induction false} AllDistinct(buckets: seq<Head>, mem: Memory, n: nat)
    requires n <= |buckets| && BucketsOk(buckets, mem)
    ensures DistinctColors(AllItems(buckets, mem, n))
    ensures forall it | it in AllItems(buckets, mem, n) :: it.color % |buckets| < n
  {
    hide BucketsOk, Items, HeadOk;
    if n > 0 {
      AllDistinct(buckets, mem, n - 1);
      BucketAt(buckets, mem, n - 1);
      var before, last := AllItems(buckets, mem, n - 1), Items(buckets[n - 1], mem);
      var all: seq<Item> := AllItems(buckets, mem, n);
      assert all == before + last;
      forall i, j | 0 <= i < j < |all|
        ensures all[i].color != all[j].color
      {
        if i < |before| <= j {
          assert before[i] in before && last[j - |before|] in last;
        }
      }
    }
  }

  lemma {:induction false} KeptDistinct(items: seq<Item>)
    requires DistinctColors(items)
    ensures DistinctColors(Kept(items))
  {
    if items != [] {
      var init, last := items[..|items| - 1], items[|items| - 1];
      KeptDistinct(init);
      forall i | 0 <= i < |Kept(init)|
        ensures Kept(init)[i].color != last.color
      {
        KeptMember(init, Kept(init)[i]);
        var k :| 0 <= k < |init| && init[k] == Kept(init)[i];
        assert items[k].color != items[|items| - 1].color;
      }
    }
  }

  // ----- the conversion

  /** The buffer so far: one item per kept colour, in order, and the sum of their weights. */
  ghost predicate Filled(achv: seq<HistSort.HistItem>, j: nat, total: real, items: seq<Item>, toF: nat -> Pixel,
                         maxWeight: real) {
    && j == |Kept(items)| <= |achv|
    && (forall k | 0 <= k < j :: ItemOf(achv[k], Kept(items)[k], toF, maxWeight))
    && total == P.Sum(Capped(maxWeight), Kept(items))
  }

  /** Adds one stored colour; there is room for it as long as the buffer was sized by the number of colours. */
  method AddToHist(achv: array<HistSort.HistItem>, j: nat, total: real, entry: Item, toF: nat -> Pixel,
                   maxWeight: real, ghost items: seq<Item>)
    returns (j': nat, total': real)
    requires Filled(achv[..], j, total, items, toF, maxWeight) && |items| < achv.Length
    modifies achv
    ensures Filled(achv[..], j', total', items + [entry], toF, maxWeight)
  {
    hide P.Sum;
    assert (items + [entry])[..|items|] == items;
    if entry.weight == 0 {
      assert Kept(items + [entry]) == Kept(items);
      return j, total;
    }
    var w := if entry.weight as real / 128.0 < maxWeight then entry.weight as real / 128.0 else maxWeight;
    achv[j] := achv[j].(acolor := toF(entry.color), adjustedWeight := w, perceptualWeight := w);
    j', total' := j + 1, total + w;
    P.SumConcat(Capped(maxWeight), Kept(items), [entry]);
    P.SumSingle(Capped(maxWeight), entry);
  }

  /** Adds the contents of one bucket. */
  method AddBucket(achv: array<HistSort.HistItem>, j: nat, total: real, h: Head, mem: Memory, toF: nat -> Pixel,
                   maxWeight: real, ghost items: seq<Item>)
    returns (j': nat, total': real)
    requires HeadOk(h, mem) && Filled(achv[..], j, total, items, toF, maxWeight) && |items| + h.used <= achv.Length
    modifies achv
    ensures Filled(achv[..], j', total', items + Items(h, mem), toF, maxWeight)
  {
    hide Filled;
    j', total' := j, total;
    assert items + [] == items;
    if h.used > 0 {
      j', total' := AddToHist(achv, j', total', h.inline1, toF, maxWeight, items);
      if h.used > 1 {
        j', total' := AddToHist(achv, j', total', h.inline2, toF, maxWeight, items + [h.inline1]);
        ghost var two := items + [h.inline1] + [h.inline2];
        assert items + Items(h, mem)[..2] == two;
        for k := 0 to h.used - 2
          invariant Filled(achv[..], j', total', items + Items(h, mem)[..2 + k], toF, maxWeight)
        {
          j', total' :=
            AddToHist(achv, j', total', mem[h.other.value][k], toF, maxWeight, items + Items(h, mem)[..2 + k]);
          assert items + Items(h, mem)[..2 + k] + [mem[h.other.value][k]] == items + Items(h, mem)[..2 + k + 1];
        }
        assert Items(h, mem)[..h.used] == Items(h, mem);
      }
    }
  }

  /** The histogram, or none exactly when no colour has any weight; no colour occurs in it twice. */
  method AColorHashToHist(t: AColorHash, toF: nat -> Pixel, maxWeight: real)
    returns (ok: bool, achv: array<HistSort.HistItem>, size: nat, total: real)
    requires t.Valid()
    ensures fresh(achv) && size <= achv.Length
    ensures Filled(achv[..], size, total, AllItems(t.buckets, t.mem, |t.buckets|), toF, maxWeight)
    ensures DistinctColors(Kept(AllItems(t.buckets, t.mem, |t.buckets|)))
    ensures ok <==> exists c: nat :: Weighty(Lookup(t.buckets, t.mem, c))
  {
    hide Items, Filled, BucketsOk, Lookup;
    var n := if t.colors > 1 then t.colors else 1;
    achv := new HistSort.HistItem[n];
    size, total := 0, 0.0;
    NothingFilled(achv[..], toF, maxWeight);
    for i := 0 to |t.buckets|
      invariant Filled(achv[..], size, total, AllItems(t.buckets, t.mem, i), toF, maxWeight)
    {
      RoomForBucket(t.buckets, t.mem, i);
      BucketAt(t.buckets, t.mem, i);
      size, total := AddBucket(achv, size, total, t.buckets[i], t.mem, toF, maxWeight, AllItems(t.buckets, t.mem, i));
    }
    FilledSize(achv[..], size, total, AllItems(t.buckets, t.mem, |t.buckets|), toF, maxWeight);
    HistogramDistinct(t.buckets, t.mem);
    EmptyExactly(t.buckets, t.mem);
    ok := size != 0;
  }

  /** No colour occurs twice in the histogram. */
  lemma {:induction false} HistogramDistinct(buckets: seq<Head>, mem: Memory)
    requires BucketsOk(buckets, mem)
    ensures DistinctColors(Kept(AllItems(buckets, mem, |buckets|)))
  {
    hide BucketsOk;
    AllDistinct(buckets, mem, |buckets|);
    KeptDistinct(AllItems(buckets, mem, |buckets|));
  }

  predicate Weighty(w: Option<nat>) {
    w.Some? && w.value != 0
  }

  lemma {:induction false} EmptyExactly(buckets: seq<Head>, mem: Memory)
    requires 0 < |buckets| && BucketsOk(buckets, mem)
    ensures Kept(AllItems(buckets, mem, |buckets|)) != [] <==> exists c: nat :: Weighty(Lookup(buckets, mem, c))
  {
    hide BucketsOk, AllItems, Kept, Lookup;
    var kept := Kept(AllItems(buckets, mem, |buckets|));
    if kept != [] {
      HistogramHolds(buckets, mem, kept[0].color, kept[0].weight);
      assert kept[0] == Item(kept[0].color, kept[0].weight);
      assert Weighty(Lookup(buckets, mem, kept[0].color));
    }
    if c: nat :| Weighty(Lookup(buckets, mem, c)) {
      HistogramHolds(buckets, mem, c, Lookup(buckets, mem, c).value);
    }
  }

  lemma {:induction false} NothingFilled(achv: seq<HistSort.HistItem>, toF: nat -> Pixel, maxWeight: real)
    ensures Filled(achv, 0, 0.0, [], toF, maxWeight)
  {
  }

  lemma {:induction false} FilledSize(achv: seq<HistSort.HistItem>, j: nat, total: real, items: seq<Item>,
                                      toF: nat -> Pixel, maxWeight: real)
    requires Filled(achv, j, total, items, toF, maxWeight)
    ensures j == |Kept(items)| <= |achv|
  {
  }

  lemma {:induction false} RoomForBucket(buckets: seq<Head>, mem: Memory, i: nat)
    requires i < |buckets| && BucketsOk(buckets, mem)
    ensures |AllItems(buckets, mem, i)| + buckets[i].used <= UsedSum(buckets)
  {
    hide BucketsOk;
    AllItemsCount(buckets, mem, i + 1);
    UsedSumPrefix(buckets, i + 1);
  }
}
