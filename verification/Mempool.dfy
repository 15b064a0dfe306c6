/**
 The bump allocator of `mempool.c`: a chain of chunks, blocks handed out from the newest one, and
 everything freed at once.
 */
module Mempool {
  import opened Basics

  /** A chunk obtained from malloc: its address, how much of it is taken, and its size. */
  datatype Chunk = Chunk(base: nat, used: nat, size: nat)

  /** A block handed out. */
  datatype Block = Block(addr: nat, size: nat)

  /** The size of the chunk header, which is also its size rounded up to the alignment. */
  const HEADER := 32

  /** Sizes and offsets are 32-bit unsigned numbers. */
  const LIMIT := 0x1_0000_0000

  function RoundUp(n: nat): nat {
    (n + 15) / 16 * 16
  }

  /** The bytes that bring an address to the next multiple of 16. */
  function Padding(addr: nat): nat {
    (16 - addr % 16) % 16
  }

  lemma {:induction false} PaddingAligns(addr: nat)
    ensures Padding(addr) <= 15 && (addr + Padding(addr)) % 16 == 0
  {
  }

  function ChunkSize(size: nat, maxSize: nat): nat {
    var wanted := if maxSize == 0 then 0x2_0000 else maxSize;
    HEADER + if size + 15 > wanted then size + 15 else wanted
  }

  /** A chunk has room for its header, the request and its padding, and at least the size asked for or 128 KiB. */
  lemma {:induction false} ChunkRoom(size: nat, maxSize: nat)
    ensures ChunkSize(size, maxSize) >= 32 + size + 15
    ensures ChunkSize(size, maxSize) >= 32 + if maxSize == 0 then 131072 else maxSize
    ensures ChunkSize(size, maxSize) in {32 + size + 15, 32 + maxSize, 32 + 131072}
  {
  }

  predicate Fits(chunks: seq<Chunk>, size: nat) {
    chunks != [] && chunks[0].used + size <= chunks[0].size
  }

  // ----- what the pool keeps

  predicate ChunkOk(c: Chunk) {
    HEADER <= c.used <= c.size + 15 < LIMIT && (c.base + c.used) % 16 == 0
  }

  predicate ChunksApart(c: Chunk, d: Chunk) {
    c.base + c.size <= d.base || d.base + d.size <= c.base
  }

  predicate BlocksApart(a: Block, b: Block) {
    a.addr + a.size <= b.addr || b.addr + b.size <= a.addr
  }

  /** The block lies inside the chunk, after its header and in the part already taken. */
  predicate Holds(c: Chunk, b: Block) {
    && b.addr % 16 == 0
    && c.base + HEADER <= b.addr && b.addr + b.size <= c.base + c.size && b.addr + RoundUp(b.size) <= c.base + c.used
  }

  predicate Housed(chunks: seq<Chunk>, b: Block) {
    exists i | 0 <= i < |chunks| :: Holds(chunks[i], b)
  }

  predicate AllApart(chunks: seq<Chunk>) {
    forall i, j | 0 <= i < j < |chunks| :: ChunksApart(chunks[i], chunks[j])
  }

  /** Chunks do not overlap, and blocks are aligned, inside a chunk, and do not overlap. */
  predicate PoolOk(chunks: seq<Chunk>, blocks: seq<Block>) {
    && (forall i | 0 <= i < |chunks| :: ChunkOk(chunks[i]))
    && AllApart(chunks)
    && (forall k | 0 <= k < |blocks| :: Housed(chunks, blocks[k]))
    && (forall k, l | 0 <= k < l < |blocks| :: BlocksApart(blocks[k], blocks[l]))
  }

  function Bumped(c: Chunk, size: nat): Chunk {
    c.(used := c.used + RoundUp(size))
  }

  lemma {:induction false} BumpedHolds(c: Chunk, size: nat, b: Block)
    requires ChunkOk(c) && c.used + size <= c.size
    ensures ChunkOk(Bumped(c, size)) && Holds(Bumped(c, size), Block(c.base + c.used, size))
    ensures Holds(c, b) ==> Holds(Bumped(c, size), b) && BlocksApart(b, Block(c.base + c.used, size))
  {
  }

  /** A block in another chunk is apart from the new one. */
  lemma {:induction false} OtherChunk(c: Chunk, d: Chunk, size: nat, b: Block)
    requires ChunkOk(c) && c.used + size <= c.size && ChunksApart(c, d) && Holds(d, b)
    ensures BlocksApart(b, Block(c.base + c.used, size))
  {
  }

  lemma {:induction false} BlockKept(chunks: seq<Chunk>, size: nat, b: Block)
    requires Fits(chunks, size) && AllApart(chunks) && ChunkOk(chunks[0]) && Housed(chunks, b)
    ensures Housed(chunks[0 := Bumped(chunks[0], size)], b)
    ensures BlocksApart(b, Block(chunks[0].base + chunks[0].used, size))
  {
    hide Holds, BlocksApart, ChunksApart, ChunkOk, Bumped;
    var after := chunks[0 := Bumped(chunks[0], size)];
    var i :| 0 <= i < |chunks| && Holds(chunks[i], b);
    BumpedHolds(chunks[0], size, b);
    if i == 0 {
      assert Holds(after[0], b);
    } else {
      assert Holds(after[i], b);
      OtherChunk(chunks[0], chunks[i], size, b);
    }
  }

  /** Bumping the newest chunk keeps everything. */
  lemma {:induction false} BumpKeeps(chunks: seq<Chunk>, blocks: seq<Block>, size: nat)
    requires PoolOk(chunks, blocks) && Fits(chunks, size)
    ensures PoolOk(chunks[0 := Bumped(chunks[0], size)], blocks + [Block(chunks[0].base + chunks[0].used, size)])
  {
    hide Holds, BlocksApart, ChunkOk, Housed;
    var c := chunks[0];
    var block := Block(c.base + c.used, size);
    var after, more := chunks[0 := Bumped(c, size)], blocks + [block];
    BumpedHolds(c, size, block);
    assert Housed(after, block) by { HousedFirst(after, block); }
    forall k | 0 <= k < |blocks|
      ensures Housed(after, blocks[k]) && BlocksApart(blocks[k], block)
    {
      BlockKept(chunks, size, blocks[k]);
    }
  }

  lemma {:induction false} HousedFirst(chunks: seq<Chunk>, b: Block)
    requires chunks != [] && Holds(chunks[0], b)
    ensures Housed(chunks, b)
  {
  }

  lemma {:induction false} HousedStill(chunks: seq<Chunk>, front: seq<Chunk>, b: Block)
    requires Housed(chunks, b)
    ensures Housed(front + chunks, b)
  {
    var i :| 0 <= i < |chunks| && Holds(chunks[i], b);
    assert Holds((front + chunks)[|front| + i], b);
  }

  /** A new chunk, placed by malloc apart from the others, keeps everything and has room for the request. */
  lemma {:induction false} GrowKeeps(chunks: seq<Chunk>, blocks: seq<Block>, base: nat, size: nat, maxSize: nat)
    requires PoolOk(chunks, blocks) && ChunkSize(size, maxSize) + 15 < LIMIT
    requires forall i | 0 <= i < |chunks| :: ChunksApart(Chunk(base, 0, ChunkSize(size, maxSize)), chunks[i])
    ensures var more := [NewChunk(base, size, maxSize)] + chunks; PoolOk(more, blocks) && Fits(more, size)
  {
    hide Holds, BlocksApart, Housed, Padding;
    PaddingAligns(base + HEADER);
    var more := [NewChunk(base, size, maxSize)] + chunks;
    assert forall i | 0 <= i < |more| :: ChunkOk(more[i]);
    forall k | 0 <= k < |blocks|
      ensures Housed(more, blocks[k])
    {
      HousedStill(chunks, [NewChunk(base, size, maxSize)], blocks[k]);
    }
  }

  function NewChunk(base: nat, size: nat, maxSize: nat): Chunk {
    Chunk(base, HEADER + Padding(base + HEADER), ChunkSize(size, maxSize))
  }

  // ----- the pool

  class Pool {
    /** Newest chunk first. */
    var chunks: seq<Chunk>
    ghost var blocks: seq<Block>
    /** Chunks the pool no longer reaches because a later malloc failed. */
    ghost var leaked: seq<Chunk>

    ghost predicate Valid()
      reads this
    {
      PoolOk(chunks + leaked, blocks)
    }

    /** Malloc, if it succeeds, places the chunk apart from all others. */
    ghost predicate Places(malloc: Option<nat>, size: nat, maxSize: nat)
      reads this
    {
      malloc.Some? ==>
        var all, new' := chunks + leaked, Chunk(malloc.value, 0, ChunkSize(size, maxSize));
        forall i | 0 <= i < |all| :: ChunksApart(new', all[i])
    }

    constructor ()
      ensures Valid() && chunks == [] && blocks == [] && leaked == []
    {
      chunks, blocks, leaked := [], [], [];
    }

    method TakeBlock(size: nat) returns (p: Option<nat>)
      requires Valid() && Fits(chunks, size)
      modifies this
      ensures Valid() && p.Some? && blocks == old(blocks) + [Block(p.value, size)] && leaked == old(leaked)
      ensures chunks == old(chunks)[0 := Bumped(old(chunks)[0], size)]
    {
      hide PoolOk;
      ghost var all := chunks + leaked;
      BumpKeeps(all, blocks, size);
      var prevused := chunks[0].used;
      p := Some(chunks[0].base + prevused);
      chunks := chunks[0 := Bumped(chunks[0], size)];
      blocks := blocks + [Block(p.value, size)];
      assert chunks + leaked == all[0 := Bumped(all[0], size)];
    }

    method MempoolCreate(size: nat, maxSize: nat, malloc: Option<nat>) returns (p: Option<nat>)
      requires Valid() && Places(malloc, size, maxSize)
      requires ChunkSize(size, maxSize) + 15 < LIMIT && (chunks != [] ==> chunks[0].used + size < LIMIT)
      modifies this
      ensures Valid()
      ensures p.Some? <==> malloc.Some? || Fits(old(chunks), size)
      ensures p.Some? ==> blocks == old(blocks) + [Block(p.value, size)] && leaked == old(leaked)
      ensures p.Some? ==> |chunks| == |old(chunks)| + if Fits(old(chunks), size) then 0 else 1
      ensures p.None? ==> blocks == old(blocks) && chunks == [] && leaked == old(chunks) + old(leaked)
      decreases 1
    {
      hide PoolOk, ChunksApart;
      if chunks != [] && chunks[0].used + size <= chunks[0].size {
        p := TakeBlock(size);
        return;
      }
      ghost var all := chunks + leaked;
      var older := chunks;
      if malloc.None? {
        leaked := all;
        chunks := [];
        assert chunks + leaked == all;
        return None;
      }
      var chunk := Chunk(malloc.value, HEADER, ChunkSize(size, maxSize));
      chunk := chunk.(used := chunk.used + Padding(chunk.base + chunk.used));
      GrowKeeps(all, blocks, malloc.value, size, maxSize);
      chunks := [chunk] + older;
      assert chunks + leaked == [chunk] + all;
      p := MempoolAlloc(size, size, None);
    }

    method MempoolAlloc(size: nat, maxSize: nat, malloc: Option<nat>) returns (p: Option<nat>)
      requires Valid() && chunks != [] && Places(malloc, size, maxSize)
      requires Fits(chunks, size) || (ChunkSize(size, maxSize) + 15 < LIMIT && chunks[0].used + size < LIMIT)
      modifies this
      ensures Valid()
      ensures p.Some? <==> malloc.Some? || Fits(old(chunks), size)
      ensures p.Some? ==> blocks == old(blocks) + [Block(p.value, size)] && leaked == old(leaked)
      ensures p.Some? ==> |chunks| == |old(chunks)| + if Fits(old(chunks), size) then 0 else 1
      ensures p.None? ==> blocks == old(blocks) && chunks == [] && leaked == old(chunks) + old(leaked)
      decreases if Fits(chunks, size) then 0 else 2
    {
      hide PoolOk, ChunksApart;
      if chunks[0].used + size <= chunks[0].size {
        p := TakeBlock(size);
        return;
      }
      p := MempoolCreate(size, maxSize, malloc);
    }

    /** Every chunk still reached is freed, each once. */
    method MempoolDestroy() returns (freed: seq<nat>)
      requires Valid()
      modifies this
      ensures |freed| == |old(chunks)| && forall i | 0 <= i < |freed| :: freed[i] == old(chunks)[i].base
      ensures forall i, j | 0 <= i < j < |freed| :: freed[i] != freed[j]
      ensures chunks == []
    {
      ghost var all := chunks;
      BasesDistinct(chunks, leaked, blocks);
      freed := [];
      while chunks != []
        invariant |freed| + |chunks| == |all| && chunks == all[|freed|..]
        invariant forall i | 0 <= i < |freed| :: freed[i] == all[i].base
        decreases |chunks|
      {
        var next := chunks[1..];
        freed := freed + [chunks[0].base];
        chunks := next;
      }
    }
  }

  lemma {:induction false} BasesDistinct(chunks: seq<Chunk>, leaked: seq<Chunk>, blocks: seq<Block>)
    requires PoolOk(chunks + leaked, blocks)
    ensures forall i, j | 0 <= i < j < |chunks| :: chunks[i].base != chunks[j].base
  {
    hide Holds, Housed;
    var all := chunks + leaked;
    forall i, j | 0 <= i < j < |chunks|
      ensures chunks[i].base != chunks[j].base
    {
      assert ChunksApart(all[i], all[j]) && ChunkOk(all[i]) && ChunkOk(all[j]);
    }
  }
}
