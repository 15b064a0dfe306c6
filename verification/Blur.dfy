/**
 The noise filters of `blur.c`: a running-sum box blur that transposes its output, and the 5-point
 maximum and minimum.
 */
module Blur {
  import opened Basics

  // ----- flat images

  function Index(row: nat, column: nat, width: nat): nat {
    row * width + column
  }

  lemma {:induction false} IndexInside(row: nat, column: nat, width: nat, height: nat)
    requires row < height && column < width
    ensures Index(row, column, width) < height * width
  {
    assert row * width + width == (row + 1) * width <= height * width;
  }

  lemma {:induction false} IndexOrder(r1: nat, c1: nat, r2: nat, c2: nat, width: nat)
    requires c1 < width && r1 < r2
    ensures Index(r1, c1, width) < Index(r2, c2, width)
  {
    assert r1 * width + width == (r1 + 1) * width <= r2 * width;
  }

  lemma {:induction false} IndexInjective(r1: nat, c1: nat, r2: nat, c2: nat, width: nat)
    requires c1 < width && c2 < width
    ensures Index(r1, c1, width) == Index(r2, c2, width) ==> r1 == r2 && c1 == c2
  {
    if r1 < r2 {
      IndexOrder(r1, c1, r2, c2, width);
    } else if r2 < r1 {
      IndexOrder(r2, c2, r1, c1, width);
    }
  }

  /** Row j of an image. */
  function Row(image: seq<Byte>, j: nat, width: nat, height: nat): (row: seq<Byte>)
    requires j < height && |image| == height * width
    ensures |row| == width
  {
    RowInside(j, width, height);
    image[j * width..j * width + width]
  }

  lemma {:induction false} RowInside(j: nat, width: nat, height: nat)
    requires j < height
    ensures j * width + width == (j + 1) * width <= height * width
  {
  }

  lemma {:induction false} RowAt(image: seq<Byte>, j: nat, width: nat, height: nat, i: nat)
    requires i < width && j < height && |image| == height * width
    ensures Index(j, i, width) < |image| && Row(image, j, width, height)[i] == image[Index(j, i, width)]
  {
    RowInside(j, width, height);
  }

  // ----- the box mean

  /** The pixel at i, with the edge pixels repeated outside the row. */
  function Clamped(row: seq<Byte>, i: int): Byte
    requires |row| > 0
  {
    if i < 0 then row[0] else if i < |row| then row[i] else row[|row| - 1]
  }

  function WindowSum(row: seq<Byte>, lo: int, hi: int): int
    requires |row| > 0 && lo <= hi
    decreases hi - lo
  {
    if lo == hi then 0 else WindowSum(row, lo, hi - 1) + Clamped(row, hi - 1)
  }

  lemma {:induction false} WindowBounds(row: seq<Byte>, lo: int, hi: int)
    requires |row| > 0 && lo <= hi
    ensures 0 <= WindowSum(row, lo, hi) <= 255 * (hi - lo)
    decreases hi - lo
  {
    if lo < hi {
      WindowBounds(row, lo, hi - 1);
    }
  }

  lemma {:induction false} WindowDropFirst(row: seq<Byte>, lo: int, hi: int)
    requires |row| > 0 && lo < hi
    ensures WindowSum(row, lo, hi) == Clamped(row, lo) + WindowSum(row, lo + 1, hi)
    decreases hi - lo
  {
    if lo + 1 < hi {
      WindowDropFirst(row, lo, hi - 1);
    }
  }

  /** The window moves one pixel to the right. */
  lemma {:induction false} WindowSlides(row: seq<Byte>, lo: int, hi: int)
    requires |row| > 0 && lo < hi
    ensures WindowSum(row, lo + 1, hi + 1) == WindowSum(row, lo, hi) - Clamped(row, lo) + Clamped(row, hi)
  {
    WindowDropFirst(row, lo, hi);
  }

  /** The truncated mean of the 2 * size pixels i - size + 1 .. i + size. */
  function Mean(row: seq<Byte>, i: int, size: nat): (m: Byte)
    requires |row| > 0 && size > 0
  {
    var sum := WindowSum(row, i - size + 1, i + size + 1);
    WindowBounds(row, i - size + 1, i + size + 1);
    MeanInRange(sum, 2 * size);
    sum / (2 * size)
  }

  lemma {:induction false} MeanInRange(sum: int, count: int)
    requires count > 0 && 0 <= sum <= 255 * count
    ensures 0 <= sum / count < 256
  {
  }

  /** The sum before the first pixel: the edge pixel repeated size times, then the first size pixels. */
  method FirstSum(row: seq<Byte>, size: nat) returns (sum: int)
    requires 0 < size < |row|
    ensures sum == WindowSum(row, 0 - size, size)
  {
    EdgeSum(row, size);
    sum := row[0] * size;
    for i := 0 to size
      invariant sum == WindowSum(row, 0 - size, i)
    {
      sum := sum + row[i];
    }
  }

  lemma {:induction false} EdgeSum(row: seq<Byte>, count: nat)
    requires |row| > 0
    ensures WindowSum(row, 0 - count, 0) == row[0] * count
  {
    if count > 0 {
      WindowDropFirst(row, 0 - count, 0);
      EdgeSum(row, count - 1);
    }
  }

  // ----- the transposing blur

  /** Column j of the output, read with the output's row length: the blurred row. */
  ghost predicate ColumnDone(dst: seq<Byte>, row: seq<Byte>, j: nat, height: nat, size: nat, upTo: nat)
    requires 0 < |row| && size > 0 && j < height && upTo <= |row| && |dst| == |row| * height
  {
    forall i: nat | i < upTo :: Index(i, j, height) < |dst| && dst[Index(i, j, height)] == Mean(row, i, size)
  }

  /** Pixels of other columns are as before. */
  ghost predicate OthersKept(was: seq<Byte>, now: seq<Byte>, j: nat, height: nat) {
    |now| == |was| &&
    forall i: nat, c: nat | c < height && c != j && Index(i, c, height) < |was| ::
      now[Index(i, c, height)] == was[Index(i, c, height)]
  }

  /** Stores the mean of the moved window. */
  method StoreMean(dst: array<Byte>, row: seq<Byte>, i: nat, j: nat, height: nat, size: nat, sum: int)
    requires 0 < size && i < |row| && j < height && dst.Length == |row| * height
    requires sum == WindowSum(row, i - size + 1, i + size + 1)
    requires ColumnDone(dst[..], row, j, height, size, i)
    modifies dst
    ensures ColumnDone(dst[..], row, j, height, size, i + 1)
    ensures OthersKept(old(dst[..]), dst[..], j, height)
  {
    hide Mean, Index;
    IndexInside(i, j, height, |row|);
    ghost var m := Mean(row, i, size);
    assert m == sum / (2 * size) by { MeanOf(row, i, size); }
    dst[Index(i, j, height)] := sum / (2 * size);
    forall k: nat, c: nat | c < height && (k != i || c != j)
      ensures Index(k, c, height) != Index(i, j, height)
    {
      IndexInjective(k, c, i, j, height);
    }
  }

  lemma {:induction false} MeanOf(row: seq<Byte>, i: int, size: nat)
    requires |row| > 0 && size > 0
    ensures Mean(row, i, size) == WindowSum(row, i - size + 1, i + size + 1) / (2 * size)
  {
  }

  lemma {:induction false} OthersKeptOn(a: seq<Byte>, b: seq<Byte>, c: seq<Byte>, j: nat, height: nat)
    requires OthersKept(a, b, j, height) && OthersKept(b, c, j, height)
    ensures OthersKept(a, c, j, height)
  {
  }

  /** Blurs one row into column j, keeping a running sum over three stretches. */
  method BlurRow(row: seq<Byte>, dst: array<Byte>, j: nat, height: nat, size: nat)
    requires 0 < size && 2 * size + 1 <= |row| && j < height && dst.Length == |row| * height
    modifies dst
    ensures ColumnDone(dst[..], row, j, height, size, |row|)
    ensures OthersKept(old(dst[..]), dst[..], j, height)
  {
    hide WindowSum, ColumnDone, OthersKept, Index;
    var width := |row|;
    ghost var was := dst[..];
    var sum := FirstSum(row, size);
    NothingDone(dst[..], row, j, height, size);
    for i := 0 to size
      invariant sum == WindowSum(row, i - size, i + size)
      invariant ColumnDone(dst[..], row, j, height, size, i) && OthersKept(was, dst[..], j, height)
    {
      WindowSlides(row, i - size, i + size);
      sum := sum - row[0];
      sum := sum + row[i + size];
      ghost var before := dst[..];
      StoreMean(dst, row, i, j, height, size, sum);
      OthersKeptOn(was, before, dst[..], j, height);
    }
    for i := size to width - size
      invariant sum == WindowSum(row, i - size, i + size)
      invariant ColumnDone(dst[..], row, j, height, size, i) && OthersKept(was, dst[..], j, height)
    {
      WindowSlides(row, i - size, i + size);
      sum := sum - row[i - size];
      sum := sum + row[i + size];
      ghost var before := dst[..];
      StoreMean(dst, row, i, j, height, size, sum);
      OthersKeptOn(was, before, dst[..], j, height);
    }
    for i := width - size to width
      invariant sum == WindowSum(row, i - size, i + size)
      invariant ColumnDone(dst[..], row, j, height, size, i) && OthersKept(was, dst[..], j, height)
    {
      WindowSlides(row, i - size, i + size);
      sum := sum - row[i - size];
      sum := sum + row[width - 1];
      ghost var before := dst[..];
      StoreMean(dst, row, i, j, height, size, sum);
      OthersKeptOn(was, before, dst[..], j, height);
    }
  }

  lemma {:induction false} NothingDone(dst: seq<Byte>, row: seq<Byte>, j: nat, height: nat, size: nat)
    requires 0 < |row| && size > 0 && j < height && |dst| == |row| * height
    ensures ColumnDone(dst, row, j, height, size, 0) && OthersKept(dst, dst, j, height)
  {
  }

  /** The first rows' blurs are all stored. */
  ghost predicate RowsDone(src: seq<Byte>, dst: seq<Byte>, width: nat, height: nat, size: nat, upTo: nat)
    requires width > 0 && size > 0 && upTo <= height && |src| == height * width && |dst| == width * height
  {
    forall j: nat | j < upTo :: ColumnDone(dst, Row(src, j, width, height), j, height, size, width)
  }

  lemma {:induction false} RowsDoneOn(src: seq<Byte>, was: seq<Byte>, now: seq<Byte>, width: nat, height: nat,
                                      size: nat, j: nat)
    requires width > 0 && size > 0 && j < height && |src| == height * width && |was| == |now| == width * height
    requires RowsDone(src, was, width, height, size, j) && OthersKept(was, now, j, height)
    requires ColumnDone(now, Row(src, j, width, height), j, height, size, width)
    ensures RowsDone(src, now, width, height, size, j + 1)
  {
  }

  /** Every row blurred into a column: pixel (i, j) of the transposed output is the mean at i of row j. */
  method Transposing1dBlur(src: array<Byte>, dst: array<Byte>, width: nat, height: nat, size: nat)
    requires 0 < size && 2 * size + 1 <= width && src != dst
    requires src.Length == height * width && dst.Length == width * height
    modifies dst
    ensures RowsDone(src[..], dst[..], width, height, size, height)
  {
    hide ColumnDone, OthersKept, RowsDone, Row;
    ghost var image := src[..];
    NoRowsDone(image, dst[..], width, height, size);
    for j := 0 to height
      invariant src[..] == image && RowsDone(image, dst[..], width, height, size, j)
    {
      ghost var was := dst[..];
      var row := Row(src[..], j, width, height);
      BlurRow(row, dst, j, height, size);
      RowsDoneOn(image, was, dst[..], width, height, size, j);
    }
  }

  lemma {:induction false} NoRowsDone(src: seq<Byte>, dst: seq<Byte>, width: nat, height: nat, size: nat)
    requires width > 0 && size > 0 && |src| == height * width && |dst| == width * height
    ensures RowsDone(src, dst, width, height, size, 0)
  {
  }

  // ----- both passes

  /** Column x of the image after blurring every row. */
  function BlurredColumn(src: seq<Byte>, x: nat, width: nat, height: nat, size: nat): (column: seq<Byte>)
    requires size > 0 && x < width && |src| == height * width
    ensures |column| == height && forall y | 0 <= y < height :: column[y] == Mean(Row(src, y, width, height), x, size)
  {
    seq(height, y requires 0 <= y < height => Mean(Row(src, y, width, height), x, size))
  }

  /** The two-dimensional blur: at (x, y), the mean down column x of the means along the rows. */
  function Mean2d(src: seq<Byte>, x: nat, y: nat, width: nat, height: nat, size: nat): Byte
    requires size > 0 && x < width && y < height && |src| == height * width
  {
    Mean(BlurredColumn(src, x, width, height, size), y, size)
  }

  lemma {:induction false} FirstPassRow(src: seq<Byte>, tmp: seq<Byte>, x: nat, width: nat, height: nat, size: nat)
    requires size > 0 && x < width && |src| == height * width && |tmp| == width * height
    requires RowsDone(src, tmp, width, height, size, height)
    ensures Row(tmp, x, height, width) == BlurredColumn(src, x, width, height, size)
  {
    hide Mean, Index, WindowSum;
    var row, column := Row(tmp, x, height, width), BlurredColumn(src, x, width, height, size);
    forall y: nat | y < height
      ensures row[y] == column[y]
    {
      assert ColumnDone(tmp, Row(src, y, width, height), y, height, size, width);
      RowAt(tmp, x, height, width, y);
    }
  }

  lemma {:induction false} SecondPass(src: seq<Byte>, tmp: seq<Byte>, dst: seq<Byte>, width: nat, height: nat,
                                      size: nat, x: nat, y: nat)
    requires size > 0 && x < width && y < height
    requires |src| == height * width && |tmp| == width * height && |dst| == height * width
    requires RowsDone(src, tmp, width, height, size, height) && RowsDone(tmp, dst, height, width, size, width)
    ensures Index(y, x, width) < |dst| && dst[Index(y, x, width)] == Mean2d(src, x, y, width, height, size)
  {
    hide Mean, Index, Row, BlurredColumn;
    FirstPassRow(src, tmp, x, width, height, size);
    assert ColumnDone(dst, Row(tmp, x, height, width), x, width, size, height);
  }

  /**
   Two passes restore the orientation and give the two-dimensional blur; an image smaller than the
   window is left alone. The output may be the input array.
   */
  method LiqBlur(src: array<Byte>, tmp: array<Byte>, dst: array<Byte>, width: nat, height: nat, size: nat)
    requires size > 0 && tmp != src && tmp != dst
    requires src.Length == height * width && tmp.Length == width * height && dst.Length == height * width
    modifies tmp, dst
    ensures width < 2 * size + 1 || height < 2 * size + 1 ==> tmp[..] == old(tmp[..]) && dst[..] == old(dst[..])
    ensures width >= 2 * size + 1 && height >= 2 * size + 1 ==>
      forall x: nat, y: nat | x < width && y < height ::
        Index(y, x, width) < dst.Length && dst[Index(y, x, width)] == Mean2d(old(src[..]), x, y, width, height, size)
  {
    hide RowsDone, Mean2d, Index;
    if width < 2 * size + 1 || height < 2 * size + 1 {
      return;
    }
    ghost var image := src[..];
    Transposing1dBlur(src, tmp, width, height, size);
    ghost var between := tmp[..];
    Transposing1dBlur(tmp, dst, height, width, size);
    forall x: nat, y: nat | x < width && y < height
      ensures Index(y, x, width) < dst.Length && dst[Index(y, x, width)] == Mean2d(image, x, y, width, height, size)
    {
      SecondPass(image, between, dst[..], width, height, size, x, y);
    }
  }

  // ----- 5-point extrema

  function Max(a: Byte, b: Byte): Byte {
    if a > b then a else b
  }

  function Min(a: Byte, b: Byte): Byte {
    if a < b then a else b
  }

  /** A pixel, its neighbours in the row with the edge repeated, and the pixels above and below. */
  function Five(row: seq<Byte>, above: seq<Byte>, below: seq<Byte>, x: nat): seq<Byte>
    requires x < |row| && |above| == |below| == |row|
  {
    [row[x], Clamped(row, x - 1), Clamped(row, x + 1), above[x], below[x]]
  }

  /** A pixel and its four neighbours, the edge repeated outside the image. */
  function Neighbours(src: seq<Byte>, x: nat, y: nat, width: nat, height: nat): seq<Byte>
    requires x < width && y < height && |src| == height * width
  {
    Five(Row(src, y, width, height), Row(src, if y > 0 then y - 1 else 0, width, height),
         Row(src, if y + 1 < height then y + 1 else y, width, height), x)
  }

  lemma {:induction false} NeighboursAre(src: seq<Byte>, x: nat, y: nat, width: nat, height: nat)
    requires x < width && y < height && |src| == height * width
    ensures Neighbours(src, x, y, width, height) ==
      Five(Row(src, y, width, height), Row(src, if y > 1 then y - 1 else 0, width, height),
           Row(src, if height - 1 < y + 1 then height - 1 else y + 1, width, height), x)
  {
  }

  lemma {:induction false} RowPlace(y: nat, x: nat, j: nat, width: nat, height: nat)
    requires x < width && y <= j < height
    ensures Index(y, x, width) < height * width
    ensures y == j ==> Index(y, x, width) == j * width + x
    ensures y < j ==> Index(y, x, width) < j * width
  {
    IndexInside(y, x, width, height);
    if y < j {
      IndexOrder(y, x, j, 0, width);
    }
  }

  predicate Largest(v: Byte, s: seq<Byte>) {
    v in s && forall i | 0 <= i < |s| :: s[i] <= v
  }

  predicate Smallest(v: Byte, s: seq<Byte>) {
    v in s && forall i | 0 <= i < |s| :: s[i] >= v
  }

  lemma {:induction false} LargestOfFive(row: seq<Byte>, above: seq<Byte>, below: seq<Byte>, x: nat)
    requires x < |row| && |above| == |below| == |row|
    ensures Largest(Max(row[x], Max(Max(Clamped(row, x - 1), Clamped(row, x + 1)), Max(below[x], above[x]))),
                    Five(row, above, below, x))
  {
  }

  lemma {:induction false} SmallestOfFive(row: seq<Byte>, above: seq<Byte>, below: seq<Byte>, x: nat)
    requires x < |row| && |above| == |below| == |row|
    ensures Smallest(Min(row[x], Min(Min(Clamped(row, x - 1), Clamped(row, x + 1)), Min(below[x], above[x]))),
                     Five(row, above, below, x))
  {
  }

  method LiqMaxRow(row: seq<Byte>, prevrow: seq<Byte>, nextrow: seq<Byte>, dst: array<Byte>, start: nat)
    requires |prevrow| == |nextrow| == |row| > 0 && start + |row| <= dst.Length
    modifies dst
    ensures forall x: nat | x < |row| :: Largest(dst[start + x], Five(row, prevrow, nextrow, x))
    ensures forall p | 0 <= p < dst.Length && !(start <= p < start + |row|) :: dst[p] == old(dst[p])
  {
    hide Largest, Five;
    var width, out := |row|, start;
    var prev, curr, next := row[0], row[0], row[0];
    for i := 0 to width - 1
      invariant out == start + i && curr == Clamped(row, i - 1) && next == row[i]
      invariant forall x: nat | x < i :: Largest(dst[start + x], Five(row, prevrow, nextrow, x))
      invariant forall p | 0 <= p < dst.Length && !(start <= p < start + |row|) :: dst[p] == old(dst[p])
    {
      prev := curr;
      curr := next;
      next := row[i + 1];
      var t1, t2 := Max(prev, next), Max(nextrow[i], prevrow[i]);
      dst[out] := Max(curr, Max(t1, t2));
      LargestOfFive(row, prevrow, nextrow, i);
      out := out + 1;
    }
    var t1, t2 := Max(curr, next), Max(nextrow[width - 1], prevrow[width - 1]);
    dst[out] := Max(t1, t2);
    LargestOfFive(row, prevrow, nextrow, width - 1);
  }

  /** The largest of each pixel and its neighbours. */
  method LiqMax3(src: array<Byte>, dst: array<Byte>, width: nat, height: nat)
    requires width > 0 && src != dst && src.Length == dst.Length == height * width
    modifies dst
    ensures forall x: nat, y: nat | x < width && y < height ::
      Index(y, x, width) < dst.Length && Largest(dst[Index(y, x, width)], Neighbours(src[..], x, y, width, height))
  {
    hide Neighbours, Largest, Index;
    ghost var image := src[..];
    for j := 0 to height
      invariant src[..] == image
      invariant forall x: nat, y: nat | x < width && y < j ::
        Index(y, x, width) < dst.Length && Largest(dst[Index(y, x, width)], Neighbours(image, x, y, width, height))
    {
      RowInside(j, width, height);
      var row, prevrow, nextrow := Row(src[..], j, width, height),
        Row(src[..], if j > 1 then j - 1 else 0, width, height),
        Row(src[..], if height - 1 < j + 1 then height - 1 else j + 1, width, height);
      ghost var was := dst[..];
      LiqMaxRow(row, prevrow, nextrow, dst, j * width);
      forall x: nat, y: nat | x < width && y < j + 1
        ensures Index(y, x, width) < dst.Length
        ensures Largest(dst[Index(y, x, width)], Neighbours(image, x, y, width, height))
      {
        RowPlace(y, x, j, width, height);
        if y < j {
          assert dst[Index(y, x, width)] == was[Index(y, x, width)];
        } else {
          NeighboursAre(image, x, j, width, height);
          assert Largest(dst[j * width + x], Five(row, prevrow, nextrow, x));
        }
      }
    }
  }

  method LiqMinRow(row: seq<Byte>, prevrow: seq<Byte>, nextrow: seq<Byte>, dst: array<Byte>, start: nat)
    requires |prevrow| == |nextrow| == |row| > 0 && start + |row| <= dst.Length
    modifies dst
    ensures forall x: nat | x < |row| :: Smallest(dst[start + x], Five(row, prevrow, nextrow, x))
    ensures forall p | 0 <= p < dst.Length && !(start <= p < start + |row|) :: dst[p] == old(dst[p])
  {
    hide Smallest, Five;
    var width, out := |row|, start;
    var prev, curr, next := row[0], row[0], row[0];
    for i := 0 to width - 1
      invariant out == start + i && curr == Clamped(row, i - 1) && next == row[i]
      invariant forall x: nat | x < i :: Smallest(dst[start + x], Five(row, prevrow, nextrow, x))
      invariant forall p | 0 <= p < dst.Length && !(start <= p < start + |row|) :: dst[p] == old(dst[p])
    {
      prev := curr;
      curr := next;
      next := row[i + 1];
      var t1, t2 := Min(prev, next), Min(nextrow[i], prevrow[i]);
      dst[out] := Min(curr, Min(t1, t2));
      SmallestOfFive(row, prevrow, nextrow, i);
      out := out + 1;
    }
    var t1, t2 := Min(curr, next), Min(nextrow[width - 1], prevrow[width - 1]);
    dst[out] := Min(t1, t2);
    SmallestOfFive(row, prevrow, nextrow, width - 1);
  }

  /** The smallest of each pixel and its neighbours. */
  method LiqMin3(src: array<Byte>, dst: array<Byte>, width: nat, height: nat)
    requires width > 0 && src != dst && src.Length == dst.Length == height * width
    modifies dst
    ensures forall x: nat, y: nat | x < width && y < height ::
      Index(y, x, width) < dst.Length && Smallest(dst[Index(y, x, width)], Neighbours(src[..], x, y, width, height))
  {
    hide Neighbours, Smallest, Index;
    ghost var image := src[..];
    for j := 0 to height
      invariant src[..] == image
      invariant forall x: nat, y: nat | x < width && y < j ::
        Index(y, x, width) < dst.Length && Smallest(dst[Index(y, x, width)], Neighbours(image, x, y, width, height))
    {
      RowInside(j, width, height);
      var row, prevrow, nextrow := Row(src[..], j, width, height),
        Row(src[..], if j > 1 then j - 1 else 0, width, height),
        Row(src[..], if height - 1 < j + 1 then height - 1 else j + 1, width, height);
      ghost var was := dst[..];
      LiqMinRow(row, prevrow, nextrow, dst, j * width);
      forall x: nat, y: nat | x < width && y < j + 1
        ensures Index(y, x, width) < dst.Length
        ensures Smallest(dst[Index(y, x, width)], Neighbours(image, x, y, width, height))
      {
        RowPlace(y, x, j, width, height);
        if y < j {
          assert dst[Index(y, x, width)] == was[Index(y, x, width)];
        } else {
          NeighboursAre(image, x, j, width, height);
          assert Smallest(dst[j * width + x], Five(row, prevrow, nextrow, x));
        }
      }
    }
  }
}
