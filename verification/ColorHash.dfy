/**
 The colour hash of `pam.c`: buckets with two inline slots and a growable array each, arrays
 taken from a memory pool, outgrown arrays kept on a free stack for reuse.

 Array pointers are addresses into a memory that the table updates, so sharing between
 buckets, or between a bucket and the free stack, can be stated.
 */
module ColorHash {
  import opened Basics
  import opened Sectors

  datatype Item = Item(color: nat, weight: nat)

  datatype Head = Head(inline1: Item, inline2: Item, used: nat, capacity: nat, other: Option<nat>)

  type Memory = map<nat, seq<Item>>

  const FREESTACK_SIZE := 512

  // ----- one bucket

  predicate HeadOk(h: Head, mem: Memory) {
    && (h.other.None? ==> h.capacity == 0)
    && (h.other.Some? ==> 2 <= h.used && h.other.value in mem && 8 <= h.capacity <= |mem[h.other.value]|)
    && h.used <= h.capacity + 2
  }

  /** The colours of a bucket in storage order: the two inline slots, then the array. */
  function Items(h: Head, mem: Memory): (r: seq<Item>)
    requires HeadOk(h, mem)
    ensures |r| == h.used
  {
    if h.used == 0 then []
    else if h.used == 1 then [h.inline1]
    else if h.used == 2 then [h.inline1, h.inline2]
    else [h.inline1, h.inline2] + mem[h.other.value][..h.used - 2]
  }

  predicate DistinctColors(items: seq<Item>) {
    forall i, j | 0 <= i < j < |items| :: items[i].color != items[j].color
  }

  /** A bucket stores each of its colours once, and only colours that hash to it. */
  predicate BucketOk(h: Head, mem: Memory, b: nat, size: nat)
    requires 0 < size
  {
    && HeadOk(h, mem)
    && DistinctColors(Items(h, mem))
    && forall i | 0 <= i < h.used :: Items(h, mem)[i].color % size == b
  }

  // ----- the table

  function UsedSum(buckets: seq<Head>): nat {
    if buckets == [] then 0 else UsedSum(buckets[..|buckets| - 1]) + buckets[|buckets| - 1].used
  }

  /** No array belongs to two buckets, or to a bucket and the free stack, or twice to the free stack. */
  predicate NoSharing(buckets: seq<Head>, freestack: seq<nat>) {
    && (forall i, j | 0 <= i < |buckets| && 0 <= j < |buckets| && i != j && buckets[i].other.Some? ::
          buckets[i].other != buckets[j].other)
    && (forall i, k | 0 <= i < |buckets| && 0 <= k < |freestack| :: buckets[i].other != Some(freestack[k]))
    && (forall j, k | 0 <= j < |freestack| && 0 <= k < |freestack| && j != k :: freestack[j] != freestack[k])
  }

  predicate FreeArrays(freestack: seq<nat>, mem: Memory) {
    forall k | 0 <= k < |freestack| :: freestack[k] in mem && 8 <= |mem[freestack[k]]|
  }

  predicate BucketsOk(buckets: seq<Head>, mem: Memory) {
    forall b | 0 <= b < |buckets| :: BucketOk(buckets[b], mem, b, |buckets|)
  }

  predicate TableOk(buckets: seq<Head>, mem: Memory, freestack: seq<nat>, colors: nat) {
    && 0 < |buckets|
    && BucketsOk(buckets, mem)
    && NoSharing(buckets, freestack)
    && FreeArrays(freestack, mem) && |freestack| < FREESTACK_SIZE
    && colors == UsedSum(buckets)
  }

  // ----- what the table means

  /** Weight of a colour in a list of distinct colours. */
  function WeightIn(items: seq<Item>, c: nat): Option<nat> {
    if items == [] then None
    else if items[|items| - 1].color == c then Some(items[|items| - 1].weight)
    else WeightIn(items[..|items| - 1], c)
  }

  /** The plain map the table stands for: total weight per colour. */
  function Lookup(buckets: seq<Head>, mem: Memory, c: nat): Option<nat>
    requires 0 < |buckets| && BucketsOk(buckets, mem)
  {
    assert BucketOk(buckets[c % |buckets|], mem, c % |buckets|, |buckets|);
    WeightIn(Items(buckets[c % |buckets|], mem), c)
  }

  /** Weights are unsigned 32-bit numbers. */
  function Boosted(w: Option<nat>, boost: nat): nat {
    (if w.Some? then w.value + boost else boost) % TWO_32
  }

  lemma {:induction false} WeightFound(items: seq<Item>, k: nat)
    requires DistinctColors(items) && k < |items|
    ensures WeightIn(items, items[k].color) == Some(items[k].weight)
  {
    if k < |items| - 1 {
      WeightFound(items[..|items| - 1], k);
    }
  }

  lemma {:induction false} WeightMissing(items: seq<Item>, c: nat)
    ensures WeightIn(items, c).None? <==> forall k | 0 <= k < |items| :: items[k].color != c
  {
    if items != [] {
      WeightMissing(items[..|items| - 1], c);
      assert forall k | 0 <= k < |items| - 1 :: items[..|items| - 1][k] == items[k];
    }
  }

  /** Raising the weight of entry k affects that colour only. */
  lemma {:induction false} WeightRaised(items: seq<Item>, k: nat, w: nat, c: nat)
    requires DistinctColors(items) && k < |items|
    ensures WeightIn(items[k := items[k].(weight := w)], c) ==
      if c == items[k].color then Some(w) else WeightIn(items, c)
  {
    var n := |items| - 1;
    var new' := items[k := items[k].(weight := w)];
    if k < n {
      WeightRaised(items[..n], k, w, c);
      assert new'[..n] == items[..n][k := items[k].(weight := w)];
    } else {
      assert new'[..n] == items[..n];
    }
  }

  lemma {:induction false} WeightAppended(items: seq<Item>, x: Item, c: nat)
    ensures WeightIn(items + [x], c) == if c == x.color then Some(x.weight) else WeightIn(items, c)
  {
    assert (items + [x])[..|items|] == items;
  }

  // ----- effect of one add on its bucket

  /** Either the weight of the colour's entry is raised, or the colour is appended. */
  ghost predicate Added(old': seq<Item>, new': seq<Item>, color: nat, boost: nat) {
    || (exists k | 0 <= k < |old'| :: Raised(old', new', k, color, boost))
    || (new' == old' + [Item(color, boost)] && forall k | 0 <= k < |old'| :: old'[k].color != color)
  }

  ghost predicate Raised(old': seq<Item>, new': seq<Item>, k: nat, color: nat, boost: nat)
    requires k < |old'|
  {
    old'[k].color == color && new' == old'[k := Item(color, (old'[k].weight + boost) % TWO_32)]
  }

  lemma {:induction false} AddedWeights(old': seq<Item>, new': seq<Item>, color: nat, boost: nat, c: nat)
    requires DistinctColors(old') && Added(old', new', color, boost) && boost < TWO_32
    ensures WeightIn(new', c) == if c == color then Some(Boosted(WeightIn(old', color), boost)) else WeightIn(old', c)
  {
    if k :| 0 <= k < |old'| && Raised(old', new', k, color, boost) {
      WeightFound(old', k);
      WeightRaised(old', k, (old'[k].weight + boost) % TWO_32, c);
      assert old'[k := Item(color, (old'[k].weight + boost) % TWO_32)]
          == old'[k := old'[k].(weight := (old'[k].weight + boost) % TWO_32)];
    } else {
      WeightMissing(old', color);
      WeightAppended(old', Item(color, boost), c);
    }
  }

  lemma {:induction false} AddedDistinct(old': seq<Item>, new': seq<Item>, color: nat, boost: nat, b: nat, size: nat)
    requires 0 < size && color % size == b
    requires DistinctColors(old') && Added(old', new', color, boost)
    requires forall i | 0 <= i < |old'| :: old'[i].color % size == b
    ensures DistinctColors(new') && forall i | 0 <= i < |new'| :: new'[i].color % size == b
  {
    hide WeightIn;
  }

  // ----- effect of one add on the table

  /** The arrays of all buckets but b are as before. */
  ghost predicate OthersKept(buckets: seq<Head>, b: nat, mem: Memory, mem': Memory) {
    forall i | 0 <= i < |buckets| && i != b && buckets[i].other.Some? ::
      buckets[i].other.value in mem && buckets[i].other.value in mem'
      && mem'[buckets[i].other.value] == mem[buckets[i].other.value]
  }

  lemma {:induction false} OtherBucket(buckets: seq<Head>, b: nat, mem: Memory, mem': Memory, i: nat)
    requires i < |buckets| && i != b && BucketOk(buckets[i], mem, i, |buckets|) && OthersKept(buckets, b, mem, mem')
    ensures BucketOk(buckets[i], mem', i, |buckets|) && Items(buckets[i], mem') == Items(buckets[i], mem)
  {
  }

  lemma {:induction false} UsedSumUpdate(buckets: seq<Head>, b: nat, h: Head)
    requires b < |buckets|
    ensures UsedSum(buckets[b := h]) == UsedSum(buckets) - buckets[b].used + h.used
    ensures UsedSum(buckets) >= buckets[b].used
  {
    var n := |buckets| - 1;
    if b < n {
      UsedSumUpdate(buckets[..n], b, h);
      assert buckets[b := h][..n] == buckets[..n][b := h];
    } else {
      assert buckets[b := h][..n] == buckets[..n];
    }
  }

  lemma {:induction false} CommitBuckets(buckets: seq<Head>, mem: Memory, b: nat, h: Head, mem': Memory, color: nat,
                                         boost: nat)
    requires b < |buckets| && BucketsOk(buckets, mem) && color % |buckets| == b
    requires BucketOk(buckets[b], mem, b, |buckets|) && HeadOk(h, mem')
    requires Added(Items(buckets[b], mem), Items(h, mem'), color, boost) && OthersKept(buckets, b, mem, mem')
    ensures BucketsOk(buckets[b := h], mem')
  {
    hide Items, HeadOk, Added, DistinctColors, OthersKept;
    var buckets' := buckets[b := h];
    forall i | 0 <= i < |buckets|
      ensures BucketOk(buckets'[i], mem', i, |buckets|)
    {
      if i == b {
        AddedDistinct(Items(buckets[b], mem), Items(h, mem'), color, boost, b, |buckets|);
      } else {
        assert BucketOk(buckets[i], mem, i, |buckets|);
        OtherBucket(buckets, b, mem, mem', i);
      }
    }
  }

  /** After an add the table stands for the same map with the one colour's weight raised. */
  ghost predicate LookupRaised(buckets: seq<Head>, mem: Memory, buckets': seq<Head>, mem': Memory, color: nat,
                               boost: nat)
    requires 0 < |buckets| && BucketsOk(buckets, mem) && 0 < |buckets'| && BucketsOk(buckets', mem')
  {
    && Lookup(buckets', mem', color) == Some(Boosted(Lookup(buckets, mem, color), boost))
    && forall c: nat | c != color :: Lookup(buckets', mem', c) == Lookup(buckets, mem, c)
  }

  lemma {:induction false} CommitLookup(buckets: seq<Head>, mem: Memory, b: nat, h: Head, mem': Memory, color: nat,
                                        boost: nat)
    requires b < |buckets| && BucketsOk(buckets, mem) && color % |buckets| == b && boost < TWO_32
    requires BucketOk(buckets[b], mem, b, |buckets|) && HeadOk(h, mem')
    requires Added(Items(buckets[b], mem), Items(h, mem'), color, boost) && OthersKept(buckets, b, mem, mem')
    requires BucketsOk(buckets[b := h], mem')
    ensures LookupRaised(buckets, mem, buckets[b := h], mem', color, boost)
  {
    hide Items, HeadOk, Added, DistinctColors, OthersKept, WeightIn;
    forall c: nat
      ensures Lookup(buckets[b := h], mem', c) ==
        if c == color then Some(Boosted(Lookup(buckets, mem, color), boost)) else Lookup(buckets, mem, c)
    {
      var i := c % |buckets|;
      if i == b {
        AddedWeights(Items(buckets[b], mem), Items(h, mem'), color, boost, c);
      } else {
        assert BucketOk(buckets[i], mem, i, |buckets|);
        OtherBucket(buckets, b, mem, mem', i);
      }
    }
  }

  // ----- ownership of arrays

  lemma {:induction false} KeepArray(buckets: seq<Head>, freestack: seq<nat>, b: nat, h: Head)
    requires b < |buckets| && NoSharing(buckets, freestack) && h.other == buckets[b].other
    ensures NoSharing(buckets[b := h], freestack)
  {
  }

  lemma {:induction false} TakeFree(buckets: seq<Head>, freestack: seq<nat>, b: nat, h: Head)
    requires b < |buckets| && NoSharing(buckets, freestack) && freestack != []
    requires h.other == Some(freestack[|freestack| - 1])
    ensures NoSharing(buckets[b := h], freestack[..|freestack| - 1])
  {
  }

  lemma {:induction false} TakeNew(buckets: seq<Head>, mem: Memory, freestack: seq<nat>, b: nat, h: Head, w: nat)
    requires b < |buckets| && BucketsOk(buckets, mem) && NoSharing(buckets, freestack) && FreeArrays(freestack, mem)
    requires w !in mem && h.other == Some(w)
    ensures NoSharing(buckets[b := h], freestack)
    ensures buckets[b].other.Some? ==> NoSharing(buckets[b := h], freestack + [buckets[b].other.value])
  {
    hide DistinctColors, Items;
    forall i | 0 <= i < |buckets|
      ensures buckets[i].other.Some? ==> buckets[i].other.value in mem
    {
      assert BucketOk(buckets[i], mem, i, |buckets|);
    }
  }

  /** Writing one array that no other bucket owns keeps the others. */
  lemma {:induction false} WriteKeeps(buckets: seq<Head>, mem: Memory, b: nat, w: nat, content: seq<Item>)
    requires b < |buckets| && BucketsOk(buckets, mem)
    requires forall i | 0 <= i < |buckets| && i != b :: buckets[i].other != Some(w)
    ensures OthersKept(buckets, b, mem, mem[w := content])
  {
    hide DistinctColors, Items;
    forall i | 0 <= i < |buckets| && i != b && buckets[i].other.Some?
      ensures buckets[i].other.value in mem
    {
      assert BucketOk(buckets[i], mem, i, |buckets|);
    }
  }

  // ----- the table object

  /** How an add leaves bucket b: its new head, the array written if any, and the free stack. */
  ghost predicate Committed(buckets: seq<Head>, mem: Memory, freestack: seq<nat>, b: nat, h: Head, mem': Memory,
                            freestack': seq<nat>, color: nat, boost: nat)
    requires b < |buckets| && HeadOk(buckets[b], mem)
  {
    && HeadOk(h, mem')
    && Added(Items(buckets[b], mem), Items(h, mem'), color, boost)
    && OthersKept(buckets, b, mem, mem')
    && NoSharing(buckets[b := h], freestack')
    && FreeArrays(freestack', mem') && |freestack'| < FREESTACK_SIZE
  }

  lemma {:induction false} Commit(buckets: seq<Head>, mem: Memory, freestack: seq<nat>, colors: nat, b: nat, h: Head,
                                  mem': Memory, freestack': seq<nat>, color: nat, boost: nat)
    requires TableOk(buckets, mem, freestack, colors) && b < |buckets| && color % |buckets| == b && boost < TWO_32
    requires HeadOk(buckets[b], mem) && Committed(buckets, mem, freestack, b, h, mem', freestack', color, boost)
    ensures TableOk(buckets[b := h], mem', freestack', colors - buckets[b].used + h.used)
    ensures LookupRaised(buckets, mem, buckets[b := h], mem', color, boost)
  {
    hide Items, HeadOk, Added, DistinctColors, OthersKept, NoSharing, FreeArrays, UsedSum, Lookup;
    assert BucketOk(buckets[b], mem, b, |buckets|);
    CommitBuckets(buckets, mem, b, h, mem', color, boost);
    CommitLookup(buckets, mem, b, h, mem', color, boost);
    UsedSumUpdate(buckets, b, h);
  }

  // ----- the ways an add can end

  /** What the cases below start from. */
  ghost predicate Before(buckets: seq<Head>, mem: Memory, freestack: seq<nat>, b: nat) {
    && b < |buckets|
    && BucketsOk(buckets, mem)
    && HeadOk(buckets[b], mem)
    && NoSharing(buckets, freestack)
    && FreeArrays(freestack, mem) && |freestack| < FREESTACK_SIZE
  }

  lemma {:induction false} BeforeAdd(buckets: seq<Head>, mem: Memory, freestack: seq<nat>, colors: nat, b: nat)
    requires TableOk(buckets, mem, freestack, colors) && b < |buckets|
    ensures Before(buckets, mem, freestack, b)
  {
    assert BucketOk(buckets[b], mem, b, |buckets|);
  }

  /** The head changes, the memory does not. */
  lemma {:induction false} HeadOnly(buckets: seq<Head>, mem: Memory, freestack: seq<nat>, b: nat, h: Head,
                                    color: nat, boost: nat)
    requires Before(buckets, mem, freestack, b) && HeadOk(h, mem) && h.other == buckets[b].other
    requires Added(Items(buckets[b], mem), Items(h, mem), color, boost)
    ensures Committed(buckets, mem, freestack, b, h, mem, freestack, color, boost)
  {
    hide Items, Added;
    KeepArray(buckets, freestack, b, h);
    forall i | 0 <= i < |buckets| && i != b && buckets[i].other.Some?
      ensures buckets[i].other.value in mem
    {
      assert BucketOk(buckets[i], mem, i, |buckets|);
    }
  }

  lemma {:induction false} HitInline1(buckets: seq<Head>, mem: Memory, freestack: seq<nat>, b: nat, boost: nat)
    requires Before(buckets, mem, freestack, b) && buckets[b].used > 0
    ensures var h := buckets[b]; var new' := Item(h.inline1.color, (h.inline1.weight + boost) % TWO_32);
      Committed(buckets, mem, freestack, b, h.(inline1 := new'), mem, freestack, h.inline1.color, boost)
  {
    var h := buckets[b];
    var h' := h.(inline1 := Item(h.inline1.color, (h.inline1.weight + boost) % TWO_32));
    assert Raised(Items(h, mem), Items(h', mem), 0, h.inline1.color, boost);
    HeadOnly(buckets, mem, freestack, b, h', h.inline1.color, boost);
  }

  lemma {:induction false} HitInline2(buckets: seq<Head>, mem: Memory, freestack: seq<nat>, b: nat, boost: nat)
    requires Before(buckets, mem, freestack, b) && buckets[b].used > 1
    ensures var h := buckets[b]; var new' := Item(h.inline2.color, (h.inline2.weight + boost) % TWO_32);
      Committed(buckets, mem, freestack, b, h.(inline2 := new'), mem, freestack, h.inline2.color, boost)
  {
    var h := buckets[b];
    var h' := h.(inline2 := Item(h.inline2.color, (h.inline2.weight + boost) % TWO_32));
    assert Raised(Items(h, mem), Items(h', mem), 1, h.inline2.color, boost);
    HeadOnly(buckets, mem, freestack, b, h', h.inline2.color, boost);
  }

  lemma {:induction false} FillInline1(buckets: seq<Head>, mem: Memory, freestack: seq<nat>, b: nat, color: nat,
                                       boost: nat)
    requires Before(buckets, mem, freestack, b) && buckets[b].used == 0
    ensures var h := buckets[b].(inline1 := Item(color, boost), used := 1);
      Committed(buckets, mem, freestack, b, h, mem, freestack, color, boost)
  {
    HeadOnly(buckets, mem, freestack, b, buckets[b].(inline1 := Item(color, boost), used := 1), color, boost);
  }

  lemma {:induction false} FillInline2(buckets: seq<Head>, mem: Memory, freestack: seq<nat>, b: nat, color: nat,
                                       boost: nat)
    requires Before(buckets, mem, freestack, b) && buckets[b].used == 1 && buckets[b].inline1.color != color
    ensures var h := buckets[b].(inline2 := Item(color, boost), used := 2);
      Committed(buckets, mem, freestack, b, h, mem, freestack, color, boost)
  {
    HeadOnly(buckets, mem, freestack, b, buckets[b].(inline2 := Item(color, boost), used := 2), color, boost);
  }

  /** The bucket's own array is written. */
  lemma {:induction false} OwnArray(buckets: seq<Head>, mem: Memory, freestack: seq<nat>, b: nat, h: Head,
                                    content: seq<Item>, color: nat, boost: nat)
    requires Before(buckets, mem, freestack, b) && buckets[b].other.Some? && h.other == buckets[b].other
    requires |content| == |mem[h.other.value]| && HeadOk(h, mem[h.other.value := content])
    requires Added(Items(buckets[b], mem), Items(h, mem[h.other.value := content]), color, boost)
    ensures Committed(buckets, mem, freestack, b, h, mem[h.other.value := content], freestack, color, boost)
  {
    hide Items, Added, BucketsOk;
    WriteKeeps(buckets, mem, b, h.other.value, content);
    KeepArray(buckets, freestack, b, h);
  }

  lemma {:induction false} HitOther(buckets: seq<Head>, mem: Memory, freestack: seq<nat>, b: nat, i: nat, boost: nat)
    requires Before(buckets, mem, freestack, b) && i + 2 < buckets[b].used
    ensures var r := buckets[b].other.value; var x := mem[r][i];
      var mem' := mem[r := mem[r][i := Item(x.color, (x.weight + boost) % TWO_32)]];
      Committed(buckets, mem, freestack, b, buckets[b], mem', freestack, x.color, boost)
  {
    var h := buckets[b];
    var r := h.other.value;
    var x := mem[r][i];
    var content := mem[r][i := Item(x.color, (x.weight + boost) % TWO_32)];
    assert Raised(Items(h, mem), Items(h, mem[r := content]), i + 2, x.color, boost);
    OwnArray(buckets, mem, freestack, b, h, content, x.color, boost);
  }

  ghost predicate Absent(h: Head, mem: Memory, color: nat)
    requires HeadOk(h, mem)
  {
    forall k | 0 <= k < h.used :: Items(h, mem)[k].color != color
  }

  lemma {:induction false} FillSpare(buckets: seq<Head>, mem: Memory, freestack: seq<nat>, b: nat, color: nat,
                                     boost: nat)
    requires Before(buckets, mem, freestack, b) && 2 <= buckets[b].used && buckets[b].used - 2 < buckets[b].capacity
    requires Absent(buckets[b], mem, color)
    ensures var h := buckets[b]; var r := h.other.value;
      var mem' := mem[r := mem[r][h.used - 2 := Item(color, boost)]];
      Committed(buckets, mem, freestack, b, h.(used := h.used + 1), mem', freestack, color, boost)
  {
    var h := buckets[b];
    var r := h.other.value;
    var content := mem[r][h.used - 2 := Item(color, boost)];
    assert content[..h.used - 1] == mem[r][..h.used - 2] + [Item(color, boost)];
    assert Items(h.(used := h.used + 1), mem[r := content]) == Items(h, mem) + [Item(color, boost)];
    OwnArray(buckets, mem, freestack, b, h.(used := h.used + 1), content, color, boost);
  }

  /** The first array of a bucket comes from the free stack. */
  lemma {:induction false} FirstFromFree(buckets: seq<Head>, mem: Memory, freestack: seq<nat>, b: nat, color: nat,
                                         boost: nat)
    requires Before(buckets, mem, freestack, b) && buckets[b].used == 2 && buckets[b].other.None? && freestack != []
    requires Absent(buckets[b], mem, color)
    ensures var n := |freestack| - 1; var w := freestack[n];
      Committed(buckets, mem, freestack, b, buckets[b].(other := Some(w), capacity := 8, used := 3),
                mem[w := mem[w][0 := Item(color, boost)]], freestack[..n], color, boost)
  {
    var n := |freestack| - 1;
    var w := freestack[n];
    var h := buckets[b].(other := Some(w), capacity := 8, used := 3);
    var content := mem[w][0 := Item(color, boost)];
    assert content[..1] == [Item(color, boost)];
    assert Items(h, mem[w := content]) == Items(buckets[b], mem) + [Item(color, boost)];
    hide Items, BucketsOk;
    WriteKeeps(buckets, mem, b, w, content);
    TakeFree(buckets, freestack, b, h);
  }

  /** A bucket moves to a new array, which starts with what it stored so far. */
  lemma {:induction false} MoveToNew(buckets: seq<Head>, mem: Memory, freestack: seq<nat>, freestack': seq<nat>,
                                     b: nat, h: Head, w: nat, content: seq<Item>, color: nat, boost: nat)
    requires Before(buckets, mem, freestack, b) && 2 <= buckets[b].used && w !in mem && Absent(buckets[b], mem, color)
    requires h == buckets[b].(other := Some(w), capacity := |content|, used := buckets[b].used + 1)
    requires 8 <= |content| && buckets[b].used - 1 <= |content|
    requires content[buckets[b].used - 2] == Item(color, boost)
    requires content[..buckets[b].used - 2] == Items(buckets[b], mem)[2..]
    requires freestack' == freestack
      || (buckets[b].other.Some? && freestack' == freestack + [buckets[b].other.value] && |freestack'| < FREESTACK_SIZE)
    ensures Committed(buckets, mem, freestack, b, h, mem[w := content], freestack', color, boost)
  {
    var u := buckets[b].used;
    assert content[..u - 1] == content[..u - 2] + [Item(color, boost)];
    assert Items(buckets[b], mem) == [buckets[b].inline1, buckets[b].inline2] + Items(buckets[b], mem)[2..];
    assert Items(h, mem[w := content]) == Items(buckets[b], mem) + [Item(color, boost)];
    MoveOwnership(buckets, mem, freestack, freestack', b, h, w, content);
  }

  lemma {:induction false} MoveOwnership(buckets: seq<Head>, mem: Memory, freestack: seq<nat>, freestack': seq<nat>,
                                         b: nat, h: Head, w: nat, content: seq<Item>)
    requires Before(buckets, mem, freestack, b) && w !in mem && h.other == Some(w)
    requires freestack' == freestack
      || (buckets[b].other.Some? && freestack' == freestack + [buckets[b].other.value] && |freestack'| < FREESTACK_SIZE)
    ensures OthersKept(buckets, b, mem, mem[w := content])
    ensures NoSharing(buckets[b := h], freestack') && FreeArrays(freestack', mem[w := content])
  {
    hide Items, DistinctColors;
    forall i | 0 <= i < |buckets|
      ensures buckets[i].other.Some? ==> buckets[i].other.value in mem
    {
      assert BucketOk(buckets[i], mem, i, |buckets|);
    }
    WriteKeeps(buckets, mem, b, w, content);
    TakeNew(buckets, mem, freestack, b, h, w);
  }

  class AColorHash {
    var buckets: seq<Head>
    var mem: Memory
    var freestack: seq<nat>
    var colors: nat
    const maxcolors: nat

    ghost predicate Valid()
      reads this
    {
      TableOk(buckets, mem, freestack, colors)
    }

    /** An empty table; all buckets zeroed. */
    constructor (hashSize: nat, maxcolors: nat)
      requires 0 < hashSize
      ensures Valid() && |buckets| == hashSize && this.maxcolors == maxcolors
      ensures forall c: nat :: Lookup(buckets, mem, c) == None
    {
      buckets := seq(hashSize, _ => Head(Item(0, 0), Item(0, 0), 0, 0, None));
      mem, freestack, colors := map[], [], 0;
      this.maxcolors := maxcolors;
      new;
      EmptyTable(buckets, mem);
    }

    /** Puts back the head of a bucket together with the memory it now uses. */
    method Store(b: nat, h: Head, mem': Memory, freestack': seq<nat>, colors': nat, ghost color: nat, ghost boost: nat)
      requires Valid() && b < |buckets| && color % |buckets| == b && boost < TWO_32
      requires HeadOk(buckets[b], mem) && Committed(buckets, mem, freestack, b, h, mem', freestack', color, boost)
      requires colors' == colors - buckets[b].used + h.used
      modifies this
      ensures Valid() && |buckets| == |old(buckets)|
      ensures LookupRaised(old(buckets), old(mem), buckets, mem, color, boost)
    {
      hide Items, HeadOk, Committed, TableOk, Lookup, LookupRaised;
      Commit(buckets, mem, freestack, colors, b, h, mem', freestack', color, boost);
      buckets, mem, freestack, colors := buckets[b := h], mem', freestack', colors';
    }

    /** An address that is not in use, with room for n items of any content. */
    method MempoolAlloc(n: nat) returns (w: nat, content: seq<Item>)
      ensures w !in mem && |content| == n
    {
      var addresses := mem.Keys;
      ghost var _ := SomethingNew(addresses);
      w :| w !in addresses;
      assert |seq(n, _ => Item(0, 0))| == n;
      content :| |content| == n;
    }

    method AddToHash(hash: nat, boost: nat, px: nat, allocOk: bool) returns (ok: bool)
      requires Valid() && hash < |buckets| && px % |buckets| == hash && boost < TWO_32
      modifies this
      ensures |buckets| == |old(buckets)|
      ensures ok ==> Valid() && LookupRaised(old(buckets), old(mem), buckets, mem, px, boost)
      ensures !ok ==> buckets == old(buckets) && mem == old(mem)
      ensures !ok ==> Lookup(buckets, mem, px).None? && (colors > maxcolors || !allocOk)
    {
      hide Items, HeadOk, Committed, TableOk, Lookup, LookupRaised, Before, Absent;
      BeforeAdd(buckets, mem, freestack, colors, hash);
      var achl := buckets[hash];
      HeadShape(buckets, mem, freestack, hash);
      if achl.inline1.color == px && achl.used > 0 {
        HitInline1(buckets, mem, freestack, hash, boost);
        var raised := Item(px, (achl.inline1.weight + boost) % TWO_32);
        Store(hash, achl.(inline1 := raised), mem, freestack, colors, px, boost);
        return true;
      }
      if achl.used == 0 {
        FillInline1(buckets, mem, freestack, hash, px, boost);
        Store(hash, achl.(inline1 := Item(px, boost), used := 1), mem, freestack, colors + 1, px, boost);
        return true;
      }
      if achl.used == 1 {
        FillInline2(buckets, mem, freestack, hash, px, boost);
        Store(hash, achl.(inline2 := Item(px, boost), used := 2), mem, freestack, colors + 1, px, boost);
        return true;
      }
      if achl.inline2.color == px {
        HitInline2(buckets, mem, freestack, hash, boost);
        var raised := Item(px, (achl.inline2.weight + boost) % TWO_32);
        Store(hash, achl.(inline2 := raised), mem, freestack, colors, px, boost);
        return true;
      }
      ok := AddToArray(hash, boost, px, allocOk);
    }

    /** The part of an add that looks beyond the two inline slots. */
    method AddToArray(hash: nat, boost: nat, px: nat, allocOk: bool) returns (ok: bool)
      requires Valid() && hash < |buckets| && px % |buckets| == hash && boost < TWO_32
      requires 2 <= buckets[hash].used && buckets[hash].inline1.color != px && buckets[hash].inline2.color != px
      modifies this
      ensures |buckets| == |old(buckets)|
      ensures ok ==> Valid() && LookupRaised(old(buckets), old(mem), buckets, mem, px, boost)
      ensures !ok ==> buckets == old(buckets) && mem == old(mem)
      ensures !ok ==> Lookup(buckets, mem, px).None? && (colors > maxcolors || !allocOk)
    {
      hide Items, HeadOk, Committed, TableOk, Lookup, LookupRaised, Before, Absent;
      BeforeAdd(buckets, mem, freestack, colors, hash);
      HeadShape(buckets, mem, freestack, hash);
      var achl := buckets[hash];
      var i := SearchArray(hash, px);
      if i < achl.used - 2 {
        var r := achl.other.value;
        HitOther(buckets, mem, freestack, hash, i, boost);
        Store(hash, achl, mem[r := mem[r][i := Item(px, (mem[r][i].weight + boost) % TWO_32)]], freestack, colors,
          px, boost);
        return true;
      }
      NotStored(buckets, mem, hash, px);
      if i < achl.capacity {
        var r := achl.other.value;
        FillSpare(buckets, mem, freestack, hash, px, boost);
        Store(hash, achl.(used := achl.used + 1), mem[r := mem[r][i := Item(px, boost)]], freestack, colors + 1, px,
          boost);
        return true;
      }
      if colors + 1 > maxcolors {
        colors := colors + 1;
        return false;
      }
      ok := AddWithNewArray(hash, boost, px, allocOk);
    }

    /** Position of the colour in the bucket's array, or the number of items there. */
    method SearchArray(hash: nat, px: nat) returns (i: nat)
      requires hash < |buckets| && HeadOk(buckets[hash], mem) && 2 <= buckets[hash].used
      ensures i <= buckets[hash].used - 2
      ensures i < buckets[hash].used - 2 ==> buckets[hash].other.Some? && mem[buckets[hash].other.value][i].color == px
      ensures i == buckets[hash].used - 2 && buckets[hash].inline1.color != px && buckets[hash].inline2.color != px ==>
        Absent(buckets[hash], mem, px)
    {
      var achl := buckets[hash];
      i := 0;
      while i < achl.used - 2
        invariant i <= achl.used - 2
        invariant forall k | 0 <= k < i :: mem[achl.other.value][k].color != px
      {
        if mem[achl.other.value][i].color == px {
          return;
        }
        i := i + 1;
      }
    }

    /** The array is full or missing: take one from the free stack or the pool and move there. */
    method AddWithNewArray(hash: nat, boost: nat, px: nat, allocOk: bool) returns (ok: bool)
      requires Valid() && hash < |buckets| && px % |buckets| == hash && boost < TWO_32
      requires HeadOk(buckets[hash], mem) && Absent(buckets[hash], mem, px)
      requires 2 <= buckets[hash].used == buckets[hash].capacity + 2
      requires Lookup(buckets, mem, px).None?
      modifies this
      ensures |buckets| == |old(buckets)|
      ensures ok ==> Valid() && LookupRaised(old(buckets), old(mem), buckets, mem, px, boost)
      ensures !ok ==> buckets == old(buckets) && mem == old(mem) && !allocOk
    {
      hide Items, HeadOk, Committed, TableOk, Lookup, LookupRaised, Before, Absent;
      BeforeAdd(buckets, mem, freestack, colors, hash);
      HeadShape(buckets, mem, freestack, hash);
      var achl := buckets[hash];
      var i := achl.used - 2;
      if achl.other.None? {
        if |freestack| == 0 {
          var w, content := MempoolAlloc(8);
          content := content[0 := Item(px, boost)];
          ArrayPart(achl, mem);
          MoveToNew(buckets, mem, freestack, freestack, hash, achl.(other := Some(w), capacity := 8, used := 3), w,
            content, px, boost);
          Store(hash, achl.(other := Some(w), capacity := 8, used := 3), mem[w := content], freestack, colors + 1,
            px, boost);
        } else {
          var top := |freestack| - 1;
          var w := freestack[top];
          FreeArrayUsable(buckets, mem, freestack, hash);
          FirstFromFree(buckets, mem, freestack, hash, px, boost);
          Store(hash, achl.(other := Some(w), capacity := 8, used := 3), mem[w := mem[w][0 := Item(px, boost)]],
                freestack[..top], colors + 1, px, boost);
        }
        return true;
      }
      var capacity := achl.capacity * 2 + 16;
      var stack := if |freestack| < FREESTACK_SIZE - 1 then freestack + [achl.other.value] else freestack;
      if !allocOk {
        colors, freestack := colors + 1, stack;
        return false;
      }
      var w, garbage := MempoolAlloc(capacity);
      var content := mem[achl.other.value][..achl.capacity] + garbage[achl.capacity..];
      content := content[i := Item(px, boost)];
      ArrayPart(achl, mem);
      assert content[..i] == mem[achl.other.value][..i];
      var h := achl.(other := Some(w), capacity := capacity, used := achl.used + 1);
      MoveToNew(buckets, mem, freestack, stack, hash, h, w, content, px, boost);
      Store(hash, h, mem[w := content], stack, colors + 1, px, boost);
      return true;
    }

    /** Every pixel of an image is added; on success the table stands for the old map with all boosts added up. */
    method ComputeAColorHash(pixels: seq<seq<Rgba>>, cols: nat, importance: Option<seq<Byte>>, ignorebits: nat,
                             allocOk: bool)
      returns (ok: bool)
      requires Valid() && ImageOk(pixels, cols, importance, ignorebits)
      modifies this
      ensures ok ==> Valid() && |buckets| == |old(buckets)|
      ensures ok ==> forall c: nat ::
        Lookup(buckets, mem, c) ==
          After(old(Lookup(buckets, mem, c)), Adds(pixels, cols, importance, ignorebits, |pixels|, 0), c)
    {
      hide TableOk, Lookup, LookupRaised, Posterize, AddFor, BucketsOk, StandsFor, Adds;
      ghost var start := old(buckets);
      ghost var startMem := old(mem);
      var n := 0;
      TableParts(buckets, mem, freestack, colors);
      NoAdds(start, startMem);
      AddsStart(pixels, cols, importance, ignorebits);
      for row := 0 to |pixels|
        invariant Valid() && |buckets| == |start| && n == row * cols
        invariant StandsFor(start, startMem, buckets, mem, Adds(pixels, cols, importance, ignorebits, row, 0))
      {
        AddsRow(pixels, cols, importance, ignorebits, row);
        for col := 0 to cols
          invariant Valid() && |buckets| == |start| && n == row * cols + col
          invariant StandsFor(start, startMem, buckets, mem, Adds(pixels, cols, importance, ignorebits, row, col))
        {
          InImage(row, col, |pixels|, cols);
          AddsNext(pixels, cols, importance, ignorebits, row, col);
          var add := AddFor(pixels[row][col], importance, n, ignorebits);
          AddForOk(pixels[row][col], importance, n, ignorebits);
          ghost var before, beforeMem := buckets, mem;
          ok := AddToHash(add.color % |buckets|, add.boost, add.color, allocOk);
          if !ok {
            return;
          }
          TableParts(buckets, mem, freestack, colors);
          StandsForNext(start, startMem, before, beforeMem, buckets, mem,
                        Adds(pixels, cols, importance, ignorebits, row, col), add);
          n := n + 1;
        }
      }
      ok := true;
      Stands(start, startMem, buckets, mem, Adds(pixels, cols, importance, ignorebits, |pixels|, 0));
    }
  }

  /** What a bucket stores beyond its inline slots. */
  lemma {:induction false} ArrayPart(h: Head, mem: Memory)
    requires HeadOk(h, mem) && 2 <= h.used
    ensures h.used == 2 ==> Items(h, mem)[2..] == []
    ensures h.used > 2 ==> h.other.Some? && h.other.value in mem && h.used - 2 <= |mem[h.other.value]|
    ensures h.used > 2 ==> Items(h, mem)[2..] == mem[h.other.value][..h.used - 2]
  {
  }

  lemma {:induction false} FreeArrayUsable(buckets: seq<Head>, mem: Memory, freestack: seq<nat>, b: nat)
    requires Before(buckets, mem, freestack, b) && freestack != []
    ensures freestack[|freestack| - 1] in mem && 8 <= |mem[freestack[|freestack| - 1]]|
  {
  }

  lemma {:induction false} NotStored(buckets: seq<Head>, mem: Memory, b: nat, px: nat)
    requires b < |buckets| && BucketsOk(buckets, mem) && px % |buckets| == b && HeadOk(buckets[b], mem)
    requires Absent(buckets[b], mem, px)
    ensures Lookup(buckets, mem, px).None?
  {
    assert BucketOk(buckets[b], mem, b, |buckets|);
    WeightMissing(Items(buckets[b], mem), px);
  }

  lemma {:induction false} SomethingNew(s: set<nat>) returns (w: nat)
    ensures w !in s
  {
    w := 0;
    var rest := s;
    while w in rest
      invariant forall x | x in s :: x in rest || x < w
      decreases rest
    {
      rest := rest - {w};
      w := w + 1;
    }
  }

  /** Shape of the head an add looks at. */
  lemma {:induction false} HeadShape(buckets: seq<Head>, mem: Memory, freestack: seq<nat>, b: nat)
    requires Before(buckets, mem, freestack, b)
    ensures b < |buckets| && BucketsOk(buckets, mem) && HeadOk(buckets[b], mem)
    ensures var h := buckets[b];
      && (h.other.None? ==> h.capacity == 0)
      && (h.other.Some? ==> h.other.value in mem && 8 <= h.capacity <= |mem[h.other.value]|)
      && h.used <= h.capacity + 2
  {
  }

  lemma {:induction false} NothingUsed(buckets: seq<Head>)
    requires forall b | 0 <= b < |buckets| :: buckets[b].used == 0
    ensures UsedSum(buckets) == 0
  {
    if buckets != [] {
      NothingUsed(buckets[..|buckets| - 1]);
    }
  }

  lemma {:induction false} EmptyTable(buckets: seq<Head>, mem: Memory)
    requires 0 < |buckets| && forall b | 0 <= b < |buckets| :: buckets[b] == Head(Item(0, 0), Item(0, 0), 0, 0, None)
    ensures TableOk(buckets, mem, [], 0)
    ensures forall c: nat :: Lookup(buckets, mem, c) == None
  {
    NothingUsed(buckets);
  }

  // ----- images

  datatype Rgba = Rgba(r: Byte, g: Byte, b: Byte, a: Byte)

  datatype Add = Add(color: nat, boost: nat)

  function Pow2(n: nat): (r: nat)
    ensures 1 <= r
  {
    if n == 0 then 1 else 2 * Pow2(n - 1)
  }

  /**
   One channel with its low `bits` bits replaced by a copy of its high ones: what the two masks and the
   shift do to every byte of the pixel at once.
   */
  function PosterizeChannel(c: Byte, bits: nat): (r: nat)
    requires bits < 8
    ensures r < 256
  {
    PosterizeFits(c, bits);
    c as int - c as int % Pow2(bits) + c as int / Pow2(8 - bits)
  }

  lemma {:induction false} PosterizeFits(c: Byte, bits: nat)
    requires bits < 8
    ensures 0 <= c as int - c as int % Pow2(bits) + c as int / Pow2(8 - bits) < 256
  {
    assert Pow2(1) == 2 && Pow2(2) == 4 && Pow2(3) == 8 && Pow2(4) == 16;
    assert Pow2(5) == 32 && Pow2(6) == 64 && Pow2(7) == 128 && Pow2(8) == 256;
    if bits == 0 {
    } else if bits == 1 {
    } else if bits == 2 {
    } else if bits == 3 {
    } else if bits == 4 {
    } else if bits == 5 {
    }
  }

  function Posterize(px: Rgba, ignorebits: nat): (c: nat)
    requires ignorebits < 8
    ensures c < TWO_32
  {
    PosterizeChannel(px.r, ignorebits) + 0x100 * PosterizeChannel(px.g, ignorebits)
    + 0x1_0000 * PosterizeChannel(px.b, ignorebits) + 0x100_0000 * PosterizeChannel(px.a, ignorebits)
  }

  /** The value of the high bits of a channel that posterisation keeps apart. */
  function KeptBits(c: Byte, bits: nat): nat
    requires bits < 8
  {
    Quot(c, Pow2(if bits <= 4 then bits else 8 - bits))
  }

  /** A channel in terms of its multiples: what is kept, and the copy of the high bits below it. */
  lemma {:induction false} PosterizeIs(c: Byte, bits: nat)
    requires bits < 8
    ensures PosterizeChannel(c, bits) == Product(Pow2(bits), Quot(c, Pow2(bits))) + Quot(c, Pow2(8 - bits))
  {
    hide Pow2;
    DivMod(c, Pow2(bits));
  }

  function Product(a: nat, b: nat): nat {
    a * b
  }

  function Quot(c: nat, k: nat): nat
    requires 0 < k
  {
    c / k
  }

  lemma {:induction false} DivMod(c: nat, k: nat)
    requires 0 < k
    ensures c - c % k == Product(k, Quot(c, k))
    ensures Product(k, Quot(c, k)) <= c < Product(k, Quot(c, k) + 1)
  {
    assert k * (c / k + 1) == k * (c / k) + k;
  }

  lemma {:induction false} ProductOrder(k: nat, a: nat, b: nat)
    ensures a <= b ==> Product(k, a) <= Product(k, b)
    ensures a < b && 0 < k ==> Product(k, a) < Product(k, b)
  {
    if a < b {
      assert k * b == k * a + k * (b - a);
    }
  }

  lemma {:induction false} DivOrder(c: nat, d: nat, k: nat)
    requires c <= d && 0 < k
    ensures Quot(c, k) <= Quot(d, k)
  {
    DivMod(c, k);
    DivMod(d, k);
    ProductOrder(k, Quot(d, k) + 1, Quot(c, k));
  }

  lemma {:induction false} DivIs(c: nat, k: nat, q: nat)
    requires 0 < k && Product(k, q) <= c < Product(k, q + 1)
    ensures Quot(c, k) == q
  {
    hide Product;
    DivMod(c, k);
    ProductOrder(k, Quot(c, k) + 1, q);
    ProductOrder(k, q + 1, Quot(c, k));
  }

  lemma {:induction false} DivDiv(c: nat, a: nat, m: nat)
    requires 0 < a && 0 < m
    ensures 0 < a * m && Quot(c, a * m) == Quot(Quot(c, a), m)
  {
    var q := Quot(c, a);
    var r := Quot(q, m);
    ProductAssociative(a, m, r);
    ProductAssociative(a, m, r + 1);
    DivMod(c, a);
    DivMod(q, m);
    hide Product, Quot;
    ProductOrder(a, Product(m, r), q);
    ProductOrder(a, q + 1, Product(m, r + 1));
    DivIs(c, a * m, r);
  }

  lemma {:induction false} ProductAssociative(a: nat, m: nat, r: nat)
    ensures Product(a * m, r) == Product(a, Product(m, r))
    ensures 0 < a && 0 < m ==> 0 < a * m
  {
  }

  lemma {:induction false} Pow2Adds(m: nat, n: nat)
    ensures Pow2(m + n) == Pow2(m) * Pow2(n)
  {
    if m > 0 {
      Pow2Adds(m - 1, n);
      assert 2 * (Pow2(m - 1) * Pow2(n)) == Pow2(m) * Pow2(n);
    }
  }

  /** Channels with the same high bits have the same kept part and the same copy. */
  lemma {:induction false} SameParts(c: Byte, d: Byte, bits: nat)
    requires bits < 8 && KeptBits(c, bits) == KeptBits(d, bits)
    ensures Quot(c, Pow2(bits)) == Quot(d, Pow2(bits)) && Quot(c, Pow2(8 - bits)) == Quot(d, Pow2(8 - bits))
  {
    var less, more := if bits <= 4 then bits else 8 - bits, if bits <= 4 then 8 - bits else bits;
    Pow2Adds(less, more - less);
    hide Pow2, Quot;
    DivDiv(c, Pow2(less), Pow2(more - less));
    DivDiv(d, Pow2(less), Pow2(more - less));
  }

  /** Order is kept, and strictly so between channels that differ in their high bits. */
  lemma {:induction false} PosterizeOrder(c: Byte, d: Byte, bits: nat)
    requires bits < 8 && c <= d
    ensures PosterizeChannel(c, bits) <= PosterizeChannel(d, bits)
    ensures KeptBits(c, bits) != KeptBits(d, bits) ==> PosterizeChannel(c, bits) < PosterizeChannel(d, bits)
  {
    hide Pow2, PosterizeChannel, Product, Quot;
    PosterizeIs(c, bits);
    PosterizeIs(d, bits);
    DivOrder(c, d, Pow2(bits));
    DivOrder(c, d, Pow2(8 - bits));
    ProductOrder(Pow2(bits), Quot(c, Pow2(bits)), Quot(d, Pow2(bits)));
  }

  /**
   Posterised channels agree exactly if their high bits do, their order is kept, and the extreme values are fixed.
   With more than four ignored bits the copy of the high bits reaches back over the kept ones.
   */
  lemma {:induction false} PosterizeLaws(c: Byte, d: Byte, bits: nat)
    requires bits < 8
    ensures PosterizeChannel(c, bits) == PosterizeChannel(d, bits) <==> KeptBits(c, bits) == KeptBits(d, bits)
    ensures c <= d ==> PosterizeChannel(c, bits) <= PosterizeChannel(d, bits)
    ensures PosterizeChannel(0, bits) == 0 && PosterizeChannel(255, bits) == 255
  {
    PosterizeEnds(bits);
    hide Pow2, PosterizeChannel, KeptBits, Product, Quot;
    if c <= d {
      PosterizeOrder(c, d, bits);
    } else {
      PosterizeOrder(d, c, bits);
    }
    if KeptBits(c, bits) == KeptBits(d, bits) {
      SameParts(c, d, bits);
      PosterizeIs(c, bits);
      PosterizeIs(d, bits);
    }
  }

  lemma {:induction false} PosterizeEnds(bits: nat)
    requires bits < 8
    ensures PosterizeChannel(0, bits) == 0 && PosterizeChannel(255, bits) == 255
  {
    assert Pow2(1) == 2 && Pow2(2) == 4 && Pow2(3) == 8 && Pow2(4) == 16;
    assert Pow2(5) == 32 && Pow2(6) == 64 && Pow2(7) == 128 && Pow2(8) == 256;
  }

  /** Pixels share a colour exactly if all four posterised channels agree. */
  lemma {:induction false} PosterizeShares(p: Rgba, q: Rgba, bits: nat)
    requires bits < 8
    ensures Posterize(p, bits) == Posterize(q, bits) <==>
      && KeptBits(p.r, bits) == KeptBits(q.r, bits) && KeptBits(p.g, bits) == KeptBits(q.g, bits)
      && KeptBits(p.b, bits) == KeptBits(q.b, bits) && KeptBits(p.a, bits) == KeptBits(q.a, bits)
  {
    hide PosterizeChannel, KeptBits;
    PosterizeLaws(p.r, q.r, bits);
    PosterizeLaws(p.g, q.g, bits);
    PosterizeLaws(p.b, q.b, bits);
    PosterizeLaws(p.a, q.a, bits);
  }

  /** Fully transparent pixels are one colour whatever their channels say. */
  function AddFor(px: Rgba, importance: Option<seq<Byte>>, n: nat, ignorebits: nat): Add
    requires ignorebits < 8 && (importance.Some? ==> n < |importance.value|)
  {
    if px.a == 0 then Add(0, 2000)
    else Add(Posterize(px, ignorebits), if importance.Some? then importance.value[n] else 255)
  }

  /** Every transparent pixel adds 2000 to colour 0; any other adds its importance, or 255 without a map, to its own. */
  lemma {:induction false} AddForLaws(px: Rgba, importance: Option<seq<Byte>>, n: nat, ignorebits: nat)
    requires ignorebits < 8 && (importance.Some? ==> n < |importance.value|)
    ensures var add := AddFor(px, importance, n, ignorebits);
      && (px.a == 0 ==> add.color == 0 && add.boost == 2000)
      && (px.a != 0 ==> add.color == Posterize(px, ignorebits))
      && (px.a != 0 && importance.None? ==> add.boost == 255)
      && (px.a != 0 && importance.Some? ==> add.boost == importance.value[n])
  {
    hide Posterize;
  }

  lemma {:induction false} AddForOk(px: Rgba, importance: Option<seq<Byte>>, n: nat, ignorebits: nat)
    requires ignorebits < 8 && (importance.Some? ==> n < |importance.value|)
    ensures AddFor(px, importance, n, ignorebits).boost < TWO_32
  {
    hide Posterize;
  }

  /** The adds of all rows above `row` and of the first `col` pixels of it; the importance map is read in step. */
  function Adds(pixels: seq<seq<Rgba>>, cols: nat, importance: Option<seq<Byte>>, ignorebits: nat, row: nat,
                col: nat): (r: seq<Add>)
    requires ImageOk(pixels, cols, importance, ignorebits)
    requires row <= |pixels| && col <= cols && (row == |pixels| ==> col == 0)
    ensures |r| == row * cols + col
    decreases row, col
  {
    if col == 0 then
      if row == 0 then [] else
        var above := Adds(pixels, cols, importance, ignorebits, row - 1, 0);
        Adds(pixels, cols, importance, ignorebits, row - 1, cols)
    else
      var before := Adds(pixels, cols, importance, ignorebits, row, col - 1);
      InImage(row, col - 1, |pixels|, cols);
      before + [AddFor(pixels[row][col - 1], importance, |before|, ignorebits)]
  }

  lemma {:induction false} InImage(row: nat, col: nat, rows: nat, cols: nat)
    requires row < rows && col < cols
    ensures row * cols + col < rows * cols
  {
    assert (row + 1) * cols <= rows * cols;
  }

  predicate ImageOk(pixels: seq<seq<Rgba>>, cols: nat, importance: Option<seq<Byte>>, ignorebits: nat) {
    && ignorebits < 8
    && (forall r | 0 <= r < |pixels| :: cols <= |pixels[r]|)
    && (importance.Some? ==> |pixels| * cols <= |importance.value|)
  }

  lemma {:induction false} AddsStart(pixels: seq<seq<Rgba>>, cols: nat, importance: Option<seq<Byte>>, ignorebits: nat)
    requires ImageOk(pixels, cols, importance, ignorebits)
    ensures Adds(pixels, cols, importance, ignorebits, 0, 0) == []
  {
  }

  /** The end of one row is the start of the next. */
  lemma {:induction false} AddsRow(pixels: seq<seq<Rgba>>, cols: nat, importance: Option<seq<Byte>>, ignorebits: nat,
                                   row: nat)
    requires ImageOk(pixels, cols, importance, ignorebits) && row < |pixels|
    ensures Adds(pixels, cols, importance, ignorebits, row + 1, 0) ==
      Adds(pixels, cols, importance, ignorebits, row, cols)
  {
  }

  lemma {:induction false} AddsNext(pixels: seq<seq<Rgba>>, cols: nat, importance: Option<seq<Byte>>,
                                    ignorebits: nat, row: nat, col: nat)
    requires ImageOk(pixels, cols, importance, ignorebits) && row < |pixels| && col < cols
    requires row * cols + col < |pixels| * cols
    ensures Adds(pixels, cols, importance, ignorebits, row, col + 1) ==
      Adds(pixels, cols, importance, ignorebits, row, col)
      + [AddFor(pixels[row][col], importance, row * cols + col, ignorebits)]
  {
    hide AddFor;
  }

  /** Weight of a colour after a list of adds. */
  function After(w: Option<nat>, adds: seq<Add>, c: nat): Option<nat> {
    if adds == [] then w else
      var last := adds[|adds| - 1];
      var before := After(w, adds[..|adds| - 1], c);
      if last.color == c then Some(Boosted(before, last.boost)) else before
  }

  ghost predicate StandsFor(start: seq<Head>, startMem: Memory, buckets: seq<Head>, mem: Memory, adds: seq<Add>) {
    && 0 < |start| && BucketsOk(start, startMem) && 0 < |buckets| && BucketsOk(buckets, mem)
    && forall c: nat :: Lookup(buckets, mem, c) == After(Lookup(start, startMem, c), adds, c)
  }

  lemma {:induction false} Stands(start: seq<Head>, startMem: Memory, buckets: seq<Head>, mem: Memory, adds: seq<Add>)
    requires StandsFor(start, startMem, buckets, mem, adds)
    ensures 0 < |start| && BucketsOk(start, startMem) && 0 < |buckets| && BucketsOk(buckets, mem)
    ensures forall c: nat :: Lookup(buckets, mem, c) == After(Lookup(start, startMem, c), adds, c)
  {
    hide Lookup;
  }

  lemma {:induction false} NoAdds(start: seq<Head>, startMem: Memory)
    requires 0 < |start| && BucketsOk(start, startMem)
    ensures StandsFor(start, startMem, start, startMem, [])
  {
  }

  lemma {:induction false} TableParts(buckets: seq<Head>, mem: Memory, freestack: seq<nat>, colors: nat)
    requires TableOk(buckets, mem, freestack, colors)
    ensures 0 < |buckets| && BucketsOk(buckets, mem)
  {
  }

  lemma {:induction false} StandsForNext(start: seq<Head>, startMem: Memory, before: seq<Head>, beforeMem: Memory,
                                         buckets: seq<Head>, mem: Memory, adds: seq<Add>, add: Add)
    requires StandsFor(start, startMem, before, beforeMem, adds)
    requires 0 < |buckets| && BucketsOk(buckets, mem)
    requires LookupRaised(before, beforeMem, buckets, mem, add.color, add.boost)
    ensures StandsFor(start, startMem, buckets, mem, adds + [add])
  {
    hide Lookup;
    assert (adds + [add])[..|adds|] == adds;
  }

  function BoostSum(adds: seq<Add>, c: nat): nat {
    if adds == [] then 0 else
      BoostSum(adds[..|adds| - 1], c) + if adds[|adds| - 1].color == c then adds[|adds| - 1].boost else 0
  }

  predicate Mentions(adds: seq<Add>, c: nat) {
    exists i | 0 <= i < |adds| :: adds[i].color == c
  }

  /** As long as it stays below 2^32 the weight of a new colour is the sum of its boosts. */
  lemma {:induction false} WeightsAreSums(adds: seq<Add>, c: nat)
    requires BoostSum(adds, c) < TWO_32
    ensures After(None, adds, c) == if Mentions(adds, c) then Some(BoostSum(adds, c)) else None
  {
    if adds != [] {
      var init, last := adds[..|adds| - 1], adds[|adds| - 1];
      WeightsAreSums(init, c);
      assert forall i | 0 <= i < |init| :: init[i] == adds[i];
      if last.color == c {
        assert adds[|adds| - 1].color == c;
      } else if Mentions(adds, c) {
        var i :| 0 <= i < |adds| && adds[i].color == c;
        assert init[i].color == c;
      }
      if Mentions(init, c) {
        var i :| 0 <= i < |init| && init[i].color == c;
        assert adds[i].color == c;
      } else if !Mentions(init, c) {
        NoBoost(init, c);
      }
    }
  }

  lemma {:induction false} NoBoost(adds: seq<Add>, c: nat)
    requires !Mentions(adds, c)
    ensures BoostSum(adds, c) == 0
  {
    if adds != [] {
      assert adds[|adds| - 1].color != c;
      assert forall i | 0 <= i < |adds| - 1 :: adds[..|adds| - 1][i] == adds[i];
      NoBoost(adds[..|adds| - 1], c);
    }
  }
}
