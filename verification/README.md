# Verified core of the Clover bootloader sources

A Dafny model of the parts of the Clover sources that carry the most state and arithmetic, with proofs of what
they are for. Each part follows the code branch by branch; code that updates arrays, structures or globals in place
is a method over arrays or a class, proved against functions and predicates about which the laws are then proved.

- **Colour quantisation (libimagequant 2.12.6).** `ColorMetric` is the colour distance; `Nearest` the vantage-point
  tree and its search; `HistSort` the partition, quick select and half-weight selection; `BoxStats` and `MedianCut`
  the statistics of boxes, the median cut with its lazy error cache, the palette and the labels; `ColorHash` and
  `HashHistogram` the colour hash table and the histogram made from it; `Mempool` the allocator; `Blur` the noise filters.
- **gptsync.** `Sectors`, `Mbr`, `FsDetect` and `Gpt` are the bytes on disk; `SyncPlan` says what a run plans, `Gptsync`
  is the tool itself, and `SyncLaws` holds the laws of the planned table and of running the tool twice.
- **FSInject.** `FsPaths` is the path algebra, `FsDirs` directory reading at an injection point, `FsHandles` the life of
  file handles over every run.
- **GopHandoff.** `GopHandoff` is the write, read-back, restore-or-delete protocol over firmware variables.

`Basics` and `Permutations` hold what these share.

How the surroundings enter the model:

- Floating-point numbers are exact reals. `sqrt` is any function that yields the non-negative root.
- The C library's `qsort` is any sorted permutation.
- Allocation results, the answers of file systems, of firmware and of the user are parameters, so every theorem
  holds for all of them. A refused variable write changes nothing; an accepted one may store anything.
- A disk is a map from block numbers to 512-byte sectors; an unmapped block is a read error.
- The boot code written into an empty boot record is a parameter of 440 bytes.
- Validation of a handoff record is an arbitrary predicate on records of one size.

What the proofs found where the plain statement fails, each with its exact condition:

- A second run of gptsync can plan another write, as `SyncLaws.SecondWriteExamples` shows. With all partitions from
  block 2 on it does so exactly when the first GPT partition is typed as EFI system partition and ends below 2^32, one
  of the next three starts beyond 32 bits or is longer than that, all of them start after the first one ends, and
  beside one that starts beyond 32 bits the others end before block 2^32 - 1 (`SyncLaws.SecondPlan`).
- The table gptsync writes can overlap itself, as `SyncLaws.OverlapExample` shows; `SyncLaws.DisjointExactly` gives the
  condition on the GPT.
- `hist_item_sort_halfvar` may return the item after its stretch; it stays inside exactly when the stretch alone passes
  the bound (`HistSort.SelectedInside`), which median cut always arranges (`MedianCut.SplittableHasWeight`).
- A failed recapture of the handoff removes the previous one when that one could not be read
  (`GopHandoff.RecaptureKeeps`). Against every answer to its write and read-back, a capture keeps the promise exactly
  when it stops before the write or its recovery works (`GopHandoff.GoodExactly`, `GopHandoff.RefusedRecoverySpoils`).
- An FSInject volume opened without memory for its wrapper leaves a target handle open for good
  (`FsHandles.AllClosed`).
- A memory pool strands all its older chunks exactly when a block does not fit and malloc fails
  (`Mempool.Pool.MempoolAlloc`, `Mempool.Pool.MempoolCreate`).
- `blur.c` describes its window as 2*size+1 pixels wide; the code averages the 2*size pixels i-size+1 .. i+size, and the
  model follows the code.

## Model

| member | source | states |
|---|---|---|
| ColorMetric.Symmetric | CloverApp/libimagequant-2.12.6/pam.h:151-179 | the colour distance does not depend on the order of its arguments |
| ColorMetric.NonNegative | CloverApp/libimagequant-2.12.6/pam.h:151-179 | the distance is never negative, and zero exactly on equal pixels |
| ColorMetric.DistanceSeen | CloverApp/libimagequant-2.12.6/pam.h:160-179 | the distance is the sum over red, green and blue of the larger squared difference between the channels blended on black and blended on white |
| ColorMetric.WorstOnEveryBackground | CloverApp/libimagequant-2.12.6/pam.h:151-157 | on no grey background between black and white do two pixels differ more in a channel than the distance counts |
| ColorMetric.Minkowski | CloverApp/libimagequant-2.12.6/pam.h:151-179 | three channel distances combine like a norm: the square of the summed roots bounds the sum of the squared sums |
| ColorMetric.TriangleInequality | CloverApp/libimagequant-2.12.6/pam.h:151-179 | the root of the distance satisfies the triangle inequality for all pixels, including all alpha values |
| Nearest.TriangleSides | CloverApp/libimagequant-2.12.6/nearest.c:138-171 | distances from a vantage point bound the distance between two pixels from both sides |
| Nearest.FarPruned | CloverApp/libimagequant-2.12.6/nearest.c:155-162 | skipping the far subtree under the code's test loses no better candidate |
| Nearest.NearPruned | CloverApp/libimagequant-2.12.6/nearest.c:164-169 | skipping the near subtree under the code's test loses no better candidate |
| Nearest.VpSearchNode | CloverApp/libimagequant-2.12.6/nearest.c:138-171 | over any separating tree the search ends at the least distance among its members and the starting candidate, the excluded index apart |
| Nearest.Qsort | CloverApp/libimagequant-2.12.6/nearest.c:42-53 | the stretch becomes a permutation of itself ascending in distance, the rest untouched |
| Nearest.VpSortIndexesByDistance | CloverApp/libimagequant-2.12.6/nearest.c:48-53 | the stretch keeps its indices, each with its distance from the vantage point, in ascending order |
| Nearest.VpFindBestVantagePointIndex | CloverApp/libimagequant-2.12.6/nearest.c:58-68 | the first position of greatest popularity |
| Nearest.MedianSplit | CloverApp/libimagequant-2.12.6/nearest.c:86-104 | splitting at the median puts every near index within the radius and every far index at or beyond it |
| Nearest.JoinHalves | CloverApp/libimagequant-2.12.6/nearest.c:94-106 | subtrees over both halves and the vantage point make one separating tree over exactly those indices |
| Nearest.VpCreateNode | CloverApp/libimagequant-2.12.6/nearest.c:70-107 | every index of the stretch enters the tree exactly once, and the tree separates near from far at every node |
| Nearest.BuildTree | CloverApp/libimagequant-2.12.6/nearest.c:113-119 | the tree over a palette holds each palette index exactly once |
| Nearest.NearestOther | CloverApp/libimagequant-2.12.6/nearest.c:126-133 | a quarter of the squared distance from a palette entry to the nearest other one |
| Nearest.NearestInit | CloverApp/libimagequant-2.12.6/nearest.c:109-136 | a handle whose tree and neighbour distances are right for every palette of at most 256 colours |
| Nearest.ShortcutSound | CloverApp/libimagequant-2.12.6/nearest.c:177-181 | a guess closer than half way to its nearest neighbour is nearest in the whole palette |
| Nearest.NearestSearch | CloverApp/libimagequant-2.12.6/nearest.c:173-190 | for every pixel and guess, by shortcut or by tree, the result is nearest in the whole palette and the difference is its distance |
| HistSort.PivotIsMedian | CloverApp/libimagequant-2.12.6/mediancut.c:85-95 | on 32 or more items the pivot is a median of the three samples; always inside the stretch |
| HistSort.HistItemSwap | CloverApp/libimagequant-2.12.6/mediancut.c:75-82 | swapping inside a stretch keeps it a permutation of its origin |
| HistSort.QsortPartition | CloverApp/libimagequant-2.12.6/mediancut.c:98-118 | the stretch is permuted, everything left of the returned place sorts at or above the pivot and everything right at or below |
| HistSort.HistItemSortRange | CloverApp/libimagequant-2.12.6/mediancut.c:121-134 | terminates with a permutation in which everything before the asked position sorts at or above everything from it on |
| HistSort.SumLeft | CloverApp/libimagequant-2.12.6/mediancut.c:147-150 | the sum over the shortest stretch that reaches the bound, or over the left part and the pivot if none does |
| HistSort.HistItemSortHalfvar | CloverApp/libimagequant-2.12.6/mediancut.c:137-167 | a permutation in which the returned item is where the running weight first passes the bound, each weight counted once, with everything before at or above everything after; none exactly when even with the item after the stretch the weight stays within the bound |
| HistSort.SelectedInside | CloverApp/libimagequant-2.12.6/mediancut.c:137-167 | with non-negative weights the item lies inside the stretch if and only if the stretch alone passes the bound |
| BoxStats.AveragePixels | CloverApp/libimagequant-2.12.6/mediancut.c:437-464 | the weighted mean of every channel, undivided when the weights sum to zero |
| BoxStats.MeanBalances | CloverApp/libimagequant-2.12.6/mediancut.c:437-464 | the mean is the one value around which the weighted offsets of a channel cancel out |
| BoxStats.BoxVariance | CloverApp/libimagequant-2.12.6/mediancut.c:37-57 | the weighted, damped and scaled variance of every channel |
| BoxStats.VarianceOfOne | CloverApp/libimagequant-2.12.6/mediancut.c:29-57 | what one item adds to each channel: its weighted squared offset times 4, 7, 9 or 5 sixteenths, a quarter of it below the threshold of visibility |
| BoxStats.VarianceAdds | CloverApp/libimagequant-2.12.6/mediancut.c:37-57 | variances around one mean add up over the parts of a box |
| BoxStats.MaxErrorIsMaximum | CloverApp/libimagequant-2.12.6/mediancut.c:59-71 | the maximal error bounds every item's distance from the mean and is zero or attained |
| BoxStats.BoxMaxError | CloverApp/libimagequant-2.12.6/mediancut.c:59-71 | the loop computes that maximum |
| BoxStats.ComputeBoxError | CloverApp/libimagequant-2.12.6/mediancut.c:275-285 | the perceptually weighted distance of a box from its colour |
| BoxStats.BoxErrorNonNegative | CloverApp/libimagequant-2.12.6/mediancut.c:275-295 | a computed error is never mistaken for the not-computed mark |
| BoxStats.OneColourNoVariance | CloverApp/libimagequant-2.12.6/mediancut.c:29-57 | a box whose weighted items share a colour has no variance |
| BoxStats.ColorWeightLaws | CloverApp/libimagequant-2.12.6/mediancut.c:266-270 | colour weights are non-negative and vanish if and only if the item has no weight or the median colour |
| BoxStats.NoWeightOneColour | CloverApp/libimagequant-2.12.6/mediancut.c:216-221 | if the colour weights around a median add up to nothing, all weighted items have the median's colour |
| BoxStats.ScoreLaws | CloverApp/libimagequant-2.12.6/mediancut.c:250-256 | the score is the weight of the box times its largest channel variance, raised in proportion when its error passes the limit |
| BoxStats.ColorWeightIs | CloverApp/libimagequant-2.12.6/mediancut.c:266-270 | the colour weight is the root of the distance times what the root of one plus the weight exceeds one by |
| MedianCut.BoxInit | CloverApp/libimagequant-2.12.6/mediancut.c:312-321 | every statistic of a new box is that of its range, with the error not yet known |
| MedianCut.SplittableHasWeight | CloverApp/libimagequant-2.12.6/mediancut.c:242-264 | a box worth splitting has positive total colour weight whatever median is taken, so half of it is always passed |
| MedianCut.GetMedian | CloverApp/libimagequant-2.12.6/mediancut.c:225-237 | only the range is permuted, its first half sorts at or above the second, and the colour is that of the middle item or the weighted mean of the two middle ones |
| MedianCut.SortKeyOrders | CloverApp/libimagequant-2.12.6/mediancut.c:205-211 | for channels between 0 and 1, a colour larger by 2/65535 in the first channel of the order sorts strictly above, whatever the blend of the others |
| MedianCut.WidestFirst | CloverApp/libimagequant-2.12.6/mediancut.c:187-194 | the first channel of the order is one of largest variance |
| MedianCut.PrepareSort | CloverApp/libimagequant-2.12.6/mediancut.c:182-222 | no colour or weight changes; items are keyed by their channels in order of falling variance, weighed by their distance from the median, and half the total weight is returned |
| MedianCut.FindBreak | CloverApp/libimagequant-2.12.6/mediancut.c:358-378 | the selection never returns null here; the break is strictly inside the box, is the shortest to pass half the weight short of the last item, and no item left of it is lower by 2/65535 or more in the channel of largest variance than one right of it |
| MedianCut.BestSplittableBox | CloverApp/libimagequant-2.12.6/mediancut.c:242-264 | the first box of highest positive score among boxes of two or more colours, or -1 exactly when there is none |
| MedianCut.ErrorParts | CloverApp/libimagequant-2.12.6/mediancut.c:288-310 | cached and missing errors are non-negative and add up to the error recomputed from scratch |
| MedianCut.TotalBoxErrorBelowTarget | CloverApp/libimagequant-2.12.6/mediancut.c:288-310 | true if and only if the error recomputed from scratch is within the target, early exits and lazy filling included, and the cache stays coherent |
| MedianCut.TotalErrorIs | CloverApp/libimagequant-2.12.6/mediancut.c:275-310 | the total box error is the perceptually weighted distance of every item from the palette colour it is labelled with |
| MedianCut.TilingSplit | CloverApp/libimagequant-2.12.6/mediancut.c:383-390 | replacing a box by its two parts keeps every position in exactly one non-empty box |
| MedianCut.OtherRanges | CloverApp/libimagequant-2.12.6/mediancut.c:372-388 | reworking one box leaves the contents of every other box as they were |
| MedianCut.PopularitySplit | CloverApp/libimagequant-2.12.6/mediancut.c:383-390 | a split hands the whole perceptual weight of the box to its two parts |
| MedianCut.CutSplit | CloverApp/libimagequant-2.12.6/mediancut.c:358-390 | one iteration keeps permutation, tiling, statistics, cache coherence and total weight |
| MedianCut.SplitBox | CloverApp/libimagequant-2.12.6/mediancut.c:358-390 | the in-place iteration keeps all of that, splits exactly the chosen box at the balanced cut along a channel of largest variance, and leaves the other boxes alone |
| MedianCut.SetColormapFromBoxes | CloverApp/libimagequant-2.12.6/mediancut.c:406-425 | each palette entry is its box's colour and perceptual weight, and none is lost in total |
| MedianCut.AdjustHistogram | CloverApp/libimagequant-2.12.6/mediancut.c:428-435 | every item is labelled with the box that contains it, as an unsigned char |
| MedianCut.CutBoxes | CloverApp/libimagequant-2.12.6/mediancut.c:330-396 | the loop ends within the colour limit and only because the palette is full, nothing is worth splitting, or the target is met |
| MedianCut.MaxMseGrows | CloverApp/libimagequant-2.12.6/mediancut.c:350-352 | the error limit grows evenly with the boxes used, from the given one to seventeen times that |
| MedianCut.MedianCut | CloverApp/libimagequant-2.12.6/mediancut.c:328-404 | for every histogram with non-negative weights: a permuted input tiled by at most the asked number of boxes, right palette and labels, all perceptual weight conserved, and the error it stops on is that of the labelled palette |
| ColorHash.CommitLookup | CloverApp/libimagequant-2.12.6/pam.c:68-157 | changing one bucket changes the represented map at the added colour only |
| ColorHash.MoveToNew | CloverApp/libimagequant-2.12.6/pam.c:122-142 | moving a bucket to a larger array keeps what it stores and no array becomes shared |
| ColorHash.FirstFromFree | CloverApp/libimagequant-2.12.6/pam.c:111-142 | an array taken from the free stack changes owner and is not shared |
| ColorHash.AColorHash.constructor | CloverApp/libimagequant-2.12.6/pam.c:159-177 | a new table is well formed and represents the empty map |
| ColorHash.AColorHash.AddToHash | CloverApp/libimagequant-2.12.6/pam.c:68-157 | a successful add keeps the table well formed and raises exactly one colour's weight modulo 2^32; a failed one leaves all stored colours as they were and happens only for a new colour |
| ColorHash.AColorHash.SearchArray | CloverApp/libimagequant-2.12.6/pam.c:85-92 | the position of the colour in the bucket's array, or its end if it is not there |
| ColorHash.AColorHash.ComputeAColorHash | CloverApp/libimagequant-2.12.6/pam.c:17-66 | after a whole image the table represents the old map with every pixel's posterised colour boosted in turn, transparent pixels as colour 0 by 2000 |
| ColorHash.PosterizeLaws | CloverApp/libimagequant-2.12.6/pam.c:19-23 | posterised channels agree exactly if their high bits do, their order is kept, and 0 and 255 are fixed |
| ColorHash.PosterizeShares | CloverApp/libimagequant-2.12.6/pam.c:45-46 | pixels share a colour if and only if the high bits of all four channels agree |
| ColorHash.AddForLaws | CloverApp/libimagequant-2.12.6/pam.c:36-55 | a transparent pixel adds 2000 to colour 0, any other its importance or 255 to its own colour |
| ColorHash.WeightsAreSums | CloverApp/libimagequant-2.12.6/pam.c:17-157 | below 2^32 the weight of a colour is the sum of its boosts, and absent colours are absent |
| HashHistogram.AllDistinct | CloverApp/libimagequant-2.12.6/pam.c:191-226 | no colour is stored twice anywhere in the table |
| HashHistogram.HistogramHolds | CloverApp/libimagequant-2.12.6/pam.c:179-226 | the listed colours are exactly the represented ones of non-zero weight, with their weights |
| HashHistogram.HistogramDistinct | CloverApp/libimagequant-2.12.6/pam.c:191-226 | no colour occurs twice in the histogram |
| HashHistogram.AddToHist | CloverApp/libimagequant-2.12.6/pam.c:179-189 | one colour is appended with its capped weight unless its weight is zero, without overrunning the buffer |
| HashHistogram.CappedLaws | CloverApp/libimagequant-2.12.6/pam.c:184-185 | a weight is a 128th of the summed boosts, cut off at the cap |
| HashHistogram.AColorHashToHist | CloverApp/libimagequant-2.12.6/pam.c:191-233 | the histogram lists the colours of non-zero weight in storage order, none twice, and its total is the sum of its weights; it is refused exactly when no colour has weight |
| Mempool.BumpKeeps | CloverApp/libimagequant-2.12.6/mempool.c:26-30 | a block taken from the newest chunk is aligned, inside it, and apart from every other block |
| Mempool.GrowKeeps | CloverApp/libimagequant-2.12.6/mempool.c:32-49 | a new chunk keeps all blocks valid and always has room for the request that caused it |
| Mempool.ChunkRoom | CloverApp/libimagequant-2.12.6/mempool.c:33-36 | a chunk has room for header, request and padding, and at least the size asked for or 128 KiB |
| Mempool.Pool.MempoolCreate | CloverApp/libimagequant-2.12.6/mempool.c:24-50 | succeeds exactly if the block fits or malloc delivers, adds exactly one block, and its call back into the allocator succeeds at once |
| Mempool.Pool.MempoolAlloc | CloverApp/libimagequant-2.12.6/mempool.c:52-61 | the same for later blocks, and the mutual recursion ends; a failed malloc loses the older chunks |
| Mempool.Pool.MempoolDestroy | CloverApp/libimagequant-2.12.6/mempool.c:63-70 | every chunk still reached is freed, no address twice |
| Blur.WindowSlides | CloverApp/libimagequant-2.12.6/blur.c:41-62 | the update of the running sum is the move of the edge-clamped window by one pixel |
| Blur.FirstSum | CloverApp/libimagequant-2.12.6/blur.c:34-39 | the initial sum is that of the window before the first pixel |
| Blur.BlurRow | CloverApp/libimagequant-2.12.6/blur.c:31-63 | one column of the output becomes the truncated means of one row, the other columns untouched |
| Blur.Transposing1dBlur | CloverApp/libimagequant-2.12.6/blur.c:27-64 | every output pixel (i, j) is the truncated mean of the 2*size edge-clamped pixels around i in row j |
| Blur.LiqBlur | CloverApp/libimagequant-2.12.6/blur.c:124-132 | two passes give, in the original orientation, the vertical mean of the horizontal means, also when output and input are the same array; images below the window size are left alone |
| Blur.LiqMax3 | CloverApp/libimagequant-2.12.6/blur.c:69-91 | each pixel becomes the largest of itself and its four edge-clamped neighbours |
| Blur.LiqMin3 | CloverApp/libimagequant-2.12.6/blur.c:96-118 | each pixel becomes the smallest of itself and its four edge-clamped neighbours |
| Sectors.U32RoundTrip | gptsync/gptsync.c:128-140 | a 32-bit number written as bytes reads back |
| Sectors.U64RoundTrip | gptsync/lib.c:331-332 | eight bytes, lowest first, read as the number they stand for |
| Mbr.ReadableExactly | gptsync/lib.c:190-212 | a boot record is readable if and only if it ends with 55 AA and the first byte of each slot is 00 or 80 |
| Mbr.PartBytesFields | gptsync/gptsync.c:115-140 | where flag, type, clipped start and clipped length of an entry lie |
| Mbr.RoundTrip | gptsync/gptsync.c:92-142 | any proper table read back by `read_mbr` is the same with starts and lengths clipped at 2^32 - 1, and unchanged if and only if all of them are 32-bit numbers |
| Mbr.BytesKept | gptsync/gptsync.c:144-163 | bytes 440 to 445 always survive; bytes 0 to 439 survive if any of them was set, and become the boot code if all were zero |
| FsDetect.DetectRange | gptsync/lib.c:359-580 | detection yields only a few MBR types, none of them extended or 0xef or 0xee |
| FsDetect.DetectMarks | gptsync/lib.c:359-500 | which marks of the first sectors decide for XFS, NTFS, the three FAT sizes, HFS and ext, in order of precedence |
| FsDetect.DetectIgnoresMbr | gptsync/lib.c:359-580 | detection in a partition from block 2 on does not depend on the boot record |
| Gpt.GptParttype | gptsync/lib.c:257-268 | the first table row with the GUID, or the unknown fatal type when no row has it |
| Gpt.LookupAllowed | gptsync/lib.c:97-162 | no table row carries an extended MBR type |
| Gpt.ReadAllowed | gptsync/lib.c:270-353 | every partition read has 64-bit bounds and a type of the table or the fatal one for unknown GUIDs, none of them extended |
| Gpt.ReadGptLaws | gptsync/lib.c:282-309 | no header is an error; no signature or an odd entry size means no partitions; otherwise the entry array is read |
| Gpt.HeaderReadBack | gptsync/lib.c:289-309 | signature, array start, count and entry size are read from their places in the header |
| Gpt.EntryReadBack | gptsync/lib.c:320-336 | an entry is unused exactly if its type is all zero, and its first and last block are read from bytes 32 and 40 |
| Gpt.EntryPlace | gptsync/lib.c:311-320 | entry i lies i entry sizes into the array |
| Gpt.EntriesHold | gptsync/lib.c:311-345 | the partitions listed are exactly the used entries |
| Gpt.ReadIgnoresMbr | gptsync/lib.c:270-353 | reading the GPT does not depend on the boot record when the entry array lies beyond it |
| SyncLaws.TypedLaws | gptsync/gptsync.c:248-273 | typing changes only MBR types and leaves at most one partition typed 0xef |
| SyncLaws.TypedExactly | gptsync/gptsync.c:248-273 | how a basic data partition, a first and a later EFI system partition and any other are typed from what is found in them |
| SyncLaws.FixActiveLaws | gptsync/gptsync.c:391-442 | three rounds end with exactly one active entry, never the protective one, and change nothing else |
| SyncLaws.ActiveKept | gptsync/gptsync.c:391-442 | an active partition stays active, the first of several |
| SyncLaws.ActiveChosen | gptsync/gptsync.c:405-421 | without one, the first that systems boot from becomes active, else the first Linux one, else the first after the protective entry |
| SyncLaws.NewEntryKeeps | gptsync/gptsync.c:369-386 | an entry keeps the active flag, and an unknown type, of the old entry at its start |
| SyncLaws.NewEntryFresh | gptsync/gptsync.c:363-386 | without an old entry at its start an entry is not active, and an unknown type becomes 0xc0 |
| SyncLaws.TableLaws | gptsync/gptsync.c:337-442 | a composed table has two to four entries in order, one active and not the first, no extended type, and mirrors the GPT |
| SyncLaws.PlannedTable | gptsync/gptsync.c:464-501 | every table any run would write has these properties and no type 0x05, 0x0f or 0x85 |
| SyncLaws.WrittenOnlyIfSane | gptsync/gptsync.c:464-483 | a write is planned only over known partition types with one for data, no extended entries, and no block in two partitions of either table |
| SyncLaws.DecideExactly | gptsync/gptsync.c:275-335 | a record is overwritten if and only if it is empty, a lone protective entry, one that covers the ESP but is out of date, or an exact mirror starting with the ESP; it is in sync if and only if it covers the ESP and mirrors the GPT with one active entry |
| SyncLaws.PlanExactly | gptsync/gptsync.c:464-501 | a run plans a write if and only if the record is readable, both tables pass and the record is one of those |
| SyncLaws.ForeignRecordKept | gptsync/gptsync.c:313-334 | a record that starts with anything but a protective entry or an ESP is never touched |
| SyncLaws.InSyncMeans | gptsync/gptsync.c:284-313 | a record found in sync has the bounds and known types of the table a run would compose, and its active entry unless the protective one is active |
| SyncLaws.DisjointExactly | gptsync/gptsync.c:339-389 | the entries are pairwise disjoint if and only if the protective entry stays clear of the listed partitions, said of the GPT |
| SyncLaws.PlannedDisjoint | gptsync/gptsync.c:339-389 | the same of the disk a run starts from |
| SyncLaws.SecondDecision | gptsync/gptsync.c:275-335 | a table read back after writing is judged out of date if and only if the GPT has outgrown the boot record |
| SyncLaws.ClippedPasses | gptsync/gptsync.c:49-73 | a clipped Apple-style table passes the boot record check if and only if clipping makes no entries collide, said of the GPT |
| SyncLaws.SecondPlan | gptsync/gptsync.c:232-501 | after a write, a second fresh run plans another if and only if the GPT has outgrown the boot record and clips apart, a condition on the typed partitions alone |
| SyncLaws.Idempotent | gptsync/gptsync.c:464-501 | when every partition starts at block 2 or later and ends within 32 bits, a second run never writes: two runs equal one |
| SyncLaws.SecondWriteExamples | gptsync/gptsync.c:128-140 | a partition starting beyond 2 TiB and one longer than that, each accepted by both checks and written twice |
| SyncLaws.OverlapExample | gptsync/gptsync.c:345-347 | a GPT accepted by both checks whose composed table overlaps itself |
| GptsyncTool.Gptsync.ReadMbr | gptsync/lib.c:181-251 | succeeds exactly on a readable signed sector with sane flags, with exactly the used slots |
| GptsyncTool.Gptsync.ReadEntries | gptsync/lib.c:306-345 | entries read sector by sector are those at their computed places, failing exactly if one of those sectors fails |
| GptsyncTool.Gptsync.ReadGptTable | gptsync/lib.c:270-353 | the table equals the specification of the GPT on disk, with its error and no-GPT cases |
| GptsyncTool.Gptsync.CheckMbr | gptsync/gptsync.c:49-73 | passes if and only if entries are pairwise disjoint and none is extended |
| GptsyncTool.Gptsync.CheckGpt | gptsync/gptsync.c:179-222 | passes if and only if entries are ordered, pairwise disjoint, none fatal, and one holds data |
| GptsyncTool.Gptsync.AssignTypes | gptsync/gptsync.c:248-273 | in-place typing equals the typing the laws are about |
| GptsyncTool.Gptsync.DecideAction | gptsync/gptsync.c:275-335 | the flag-driven decision equals the three-way decision the laws are about |
| GptsyncTool.Gptsync.ComposeTable | gptsync/gptsync.c:337-389 | the composed table equals the one the laws are about |
| GptsyncTool.Gptsync.SettleActive | gptsync/gptsync.c:391-442 | the three in-place rounds equal the repair the laws are about |
| GptsyncTool.Gptsync.WriteMbr | gptsync/gptsync.c:75-173 | the sector written is the specified one byte for byte, or the disk is unchanged |
| GptsyncTool.Gptsync.Run | gptsync/gptsync.c:464-501 | a fresh confirmed run leaves exactly the synchronised disk, any other run an unchanged one; the status is zero if and only if both tables pass and the decision is conclusive, and a confirmed write succeeds |
| FsPaths.StrCmpiBasic | FSInject/FSInject.c:156-184 | zero if and only if the strings agree ignoring ASCII case |
| FsPaths.StriStartsWithBasic | FSInject/FSInject.c:189-221 | true if and only if it is a prefix ignoring case, the empty prefix only of the empty string |
| FsPaths.UpperExactly | FSInject/FSInject.c:140-150 | characters agree ignoring case if and only if they are equal or the two forms of one ASCII letter |
| FsPaths.GetStrLastCharOccurence | FSInject/FSInject.c:120-138 | the last position of the character, or none |
| FsPaths.GetNormalizedFName | FSInject/FSInject.c:226-276 | the relative name that the path laws are about |
| FsPaths.NormalizedLaws | FSInject/FSInject.c:226-276 | an absolute name stands for itself, "." for the parent, ".." goes no higher than the root, and a component is appended with one backslash |
| FsPaths.DownAndUp | FSInject/FSInject.c:226-276 | opening a component and then ".." gives back every normalised path |
| FsPaths.GetInjectionFName | FSInject/FSInject.c:285-329 | defined exactly on names that continue the target directory, ignoring case, with a backslash, as the rest under the source directory |
| FsPaths.InjectionCommutes | FSInject/FSInject.c:285-329 | the image of a name commutes with going into a component |
| FsPaths.InjectionDefined | FSInject/FSInject.c:285-329 | going into a component of a normalised path has an image if and only if the path has one or is the target directory, the root apart |
| FsPaths.InjectionAtTarget | FSInject/FSInject.c:285-329 | entries of the target directory map to entries of the source directory |
| FsDirs.InjectionPoint.Read | FSInject/FSInject.c:641-671 | a read at an injection point is a read of the joined directory |
| FsDirs.InjectionPoint.SetPosition | FSInject/FSInject.c:768-792 | a rewind rewinds the joined directory |
| FsDirs.RunsAgree | FSInject/FSInject.c:641-671 | no sequence of reads with any buffers and rewinds tells an injection point from one directory with the source and then the target listing |
| FsDirs.ListingInOrder | FSInject/FSInject.c:641-671 | whatever buffers are offered, entries are delivered in order, none skipped and none twice |
| FsDirs.EndOfListing | FSInject/FSInject.c:641-671 | the end is reported exactly when everything has been delivered, and from then on forever |
| FsDirs.InjectedListing | FSInject/FSInject.c:641-671 | after any use and a rewind, an injection point reports the end if and only if the reads since delivered exactly the source listing followed by the target listing |
| FsDirs.PairListing | FSInject/FSInject.c:658-667 | reads of the two directories deliver and leave what reads of the joined one would |
| FsDirs.InjectedListingComplete | FSInject/FSInject.c:641-671 | with large enough buffers, as many reads as entries list both directories completely |
| FsDirs.EndForever | FSInject/FSInject.c:641-671 | once the end is reported, every later read reports it and delivers nothing |
| FsHandles.OpenedOk | FSInject/FSInject.c:369-574 | for any answers of both file systems, a handle comes exactly with success; it has a target or a source, both only at the injection point, is not blacklisted, and a source alone is the image of its own name or one of the stand-ins for that kernel |
| FsHandles.OutsideUntouched | FSInject/FSInject.c:466-559 | a name outside the target directory that is neither blacklisted nor a kernel opens exactly as on the target volume |
| FsHandles.BlacklistedExactly | FSInject/FSInject.c:390-405 | a name is blacklisted if and only if it begins with a blacklisted string ignoring case, the empty string only for the empty name |
| FsHandles.BlacklistedNotFound | FSInject/FSInject.c:390-405 | a blacklisted name is not found whatever the file systems hold |
| FsHandles.NoMemory | FSInject/FSInject.c:407-413 | any other name fails for lack of memory before a file system is asked |
| FsHandles.InjectedWhenMissing | FSInject/FSInject.c:484-520 | a file the target lacks is delivered from the injection directory if and only if that has its image |
| FsHandles.TargetFirst | FSInject/FSInject.c:466-483 | a file the target has, or refuses to write, is the target's |
| FsHandles.InjectionPointJoined | FSInject/FSInject.c:541-559 | the target directory opened on the target carries the injection directory exactly if that opens |
| FsHandles.TargetVolumeFallback | FSInject/FSInject.c:519-533 | from inside the injection directory a name that is not there is looked up on the target volume |
| FsHandles.KernelReplaced | FSInject/FSInject.c:435-463 | the system kernel is replaced by `kernel`, else `mach_kernel`, of the injection directory |
| FsHandles.MachKernelReplaced | FSInject/FSInject.c:417-434 | `mach_kernel` of the root is replaced by that of the injection directory |
| FsHandles.StepSound | FSInject/FSInject.c:369-604 | opening a volume, opening and closing each keep all live handles sound and the count of handles open underneath in balance |
| FsHandles.RunSound | FSInject/FSInject.c:369-604 | both hold in every state reachable by any run |
| FsHandles.AllClosed | FSInject/FSInject.c:577-604 | after closing everything nothing stays open on the injection volume, and on the target if and only if a root was lost |
| FsHandles.FsInject.SfsOpenVolume | FSInject/FSInject.c:955-994 | the root handle is filed, or nothing on failure |
| FsHandles.FsInject.CheckBlacklist | FSInject/FSInject.c:390-405 | blocked if and only if the name starts with a blacklisted entry ignoring case |
| FsHandles.FsInject.OpenKernel | FSInject/FSInject.c:417-464 | the kernel special cases in their order, with one source handle opened exactly on success |
| FsHandles.FsInject.FpOpen | FSInject/FSInject.c:369-574 | the whole open changes the state as the step the run laws are about, with its status |
| FsHandles.FsInject.FpClose | FSInject/FSInject.c:577-604 | closing releases exactly the handles the closed one held |
| GopHandoff.VerifiedHolds | GopHandoffPkg/GopHandoff.c:856-898 | a read-back succeeds only on a store that holds exactly what was written |
| GopHandoff.VerifiedExactly | GopHandoffPkg/GopHandoff.c:856-898 | a read-back succeeds if and only if there is memory, the variable is readable and holds exactly what was expected |
| GopHandoff.OptionalKeepsOthers | GopHandoffPkg/GopHandoff.c:1158-1232 | an optional publication never touches the other variables |
| GopHandoff.OptionalOutcome | GopHandoffPkg/GopHandoff.c:1158-1232 | an optional variable is untouched, absent or exactly its verified payload whenever its cleanup works |
| GopHandoff.OptionalPublished | GopHandoffPkg/GopHandoff.c:1158-1232 | an optional payload with room is published if the firmware obeys |
| GopHandoff.CaptureSucceeds | GopHandoffPkg/GopHandoff.c:1618-1746 | a successful capture leaves its own validated handoff as the primary variable |
| GopHandoff.PreparedExactly | GopHandoffPkg/GopHandoff.c:1618-1674 | a capture gets to its write if and only if the display was selected, programmed and described, the record is valid and there is room |
| GopHandoff.CapturedExactly | GopHandoffPkg/GopHandoff.c:1618-1746 | it succeeds if and only if besides the write leaves the handoff and the read-back finds it |
| GopHandoff.CaptureFails | GopHandoffPkg/GopHandoff.c:1618-1746 | exactly what a failed capture leaves, and that the optional variables are untouched |
| GopHandoff.GoodExactly | GopHandoffPkg/GopHandoff.c:1618-1746 | whatever the firmware answers to the write and the read-back, the primary variable stays absent or last verified if and only if the capture stops before the write or the recovery it would take works |
| GopHandoff.RecaptureKeeps | GopHandoffPkg/GopHandoff.c:1676-1724 | with working recovery a failed recapture keeps the previous handoff, except exactly when it reached the read-back without having read it |
| GopHandoff.RefusedRecoverySpoils | GopHandoffPkg/GopHandoff.c:1694-1724 | with recovery refused, an unverified handoff can remain |
| GopHandoff.ExistingExactly | GopHandoffPkg/GopHandoff.c:1549-1583 | a previous handoff is found if and only if the stored variable is readable and valid |
| GopHandoff.RunSafe | GopHandoffPkg/GopHandoff.c:1750-1858 | in every run from any store, with working recoveries, while the driver is loaded the primary variable is absent or the last validated and read-back-verified handoff |
| GopHandoff.EntryExactly | GopHandoffPkg/GopHandoff.c:1800-1858 | loading succeeds if and only if image, table, deletes and event are right, arms that event, and otherwise stays unloaded |
| GopHandoff.Recaptures | GopHandoffPkg/GopHandoff.c:1750-1773 | the armed event with the loaded image recaptures, any other callback does nothing |
| GopHandoff.UnloadClears | GopHandoffPkg/GopHandoff.c:1776-1797 | unload succeeds if and only if image, event and all three deletes are right, and then no output and no armed event is left |
| GopHandoff.QuietAfterUnload | GopHandoffPkg/GopHandoff.c:1750-1797 | after an unload, late callbacks and further unloads change nothing |
| GopHandoff.Driver.VerifyVariablePayload | GopHandoffPkg/GopHandoff.c:856-898 | success means the store holds the expected attributes and data |
| GopHandoff.Driver.ReadExistingPrimaryHandoff | GopHandoffPkg/GopHandoff.c:1549-1583 | a previous handoff is reported only if it is the stored one and valid |
| GopHandoff.Driver.RestorePrimaryHandoff | GopHandoffPkg/GopHandoff.c:1586-1615 | success means the previous handoff is stored again |
| GopHandoff.Driver.PublishOptional | GopHandoffPkg/GopHandoff.c:1158-1232 | the publication the laws are about, its failures kept from the caller |
| GopHandoff.Driver.CaptureCurrentGop | GopHandoffPkg/GopHandoff.c:1618-1746 | the capture the laws are about, with its status |
| GopHandoff.Driver.CaptureAtReadyToBoot | GopHandoffPkg/GopHandoff.c:1750-1773 | captures only for its own event and image |
| GopHandoff.Driver.GopHandoffUnload | GopHandoffPkg/GopHandoff.c:1776-1797 | the unload the laws are about |
| GopHandoff.Driver.GopHandoffEntryPoint | GopHandoffPkg/GopHandoff.c:1800-1858 | the entry the laws are about, disarmed again on every failure |
| GopHandoff.FindPciIoForGopHandle | GopHandoffPkg/GopHandoff.c:901-1006 | the display handle's own interface first, then that of the deepest device on its path, ambiguous exactly when the deepest candidates disagree, nothing exactly without candidates, and a failed enumeration passed on |
| GopHandoff.DepthExactly | GopHandoffPkg/GopHandoff.c:955-985 | a handle counts exactly if its path without the end node is a prefix of the display's and it offers an interface |

## Left out

- Floating-point rounding, the SSE form of the colour distance, OpenMP, gamma tables and `powf`.
- `kmeans.c`, `libimagequant.c`, remapping and dithering.
- Wrap-around of block sizes, sums and indices at 32 bits in `mempool.c`, `blur.c` and `mediancut.c`.
- ColorHash.AColorHash.AddToHash: the first array of a bucket is taken to be allocated, because the source uses it unchecked; after a failed add only the stored colours are promised, since the count of colours and the free stack have moved.
- ColorHash.AColorHash.ComputeAColorHash: posterisation is written channel by channel instead of with one mask over the whole pixel.
- HashHistogram.AColorHashToHist: failing allocations; the conversion of a colour to a pixel is a parameter.
- Nearest.NearestInit: palettes of at most 256 colours, the size of the distance array in the source.
- MedianCut.GetMedian: does not claim that the colour has the exact middle rank, which the source disclaims too.
- Sort keys in `prepare_sort` are taken over exact channel values in the range of the code.
- SyncLaws.SecondPlan: partitions start at block 2 or later and 128 blocks before 2^64 at the latest, and the entry array lies beyond the boot record, so that writing it changes neither the GPT nor what detection sees.
- More than 128 used GPT entries and entry sizes below 128; console prompts, printed tables and `showpart.c`.
- GptsyncTool.Gptsync.Run: a prompt that fails counts as a refusal.
- Non-ASCII names in FSInject, deletion, writing, file information and text patching of kexts while reading.
- FsDirs.InjectionPoint.Read: directories underneath deliver entries in order and reject buffers that are too small, as section 13.5 of the UEFI Specification has it; device errors are not modelled.
- FsHandles.FsInject.FpOpen: pool memory of names is not tracked, nor the variable that announces the first injected file.
- Variable writes by others than the driver, and successful reads of data that is not stored.
- GopHandoff.Driver.CaptureCurrentGop: choosing and programming the display, and describing it, enter as outcomes; `gopfb_validate` is not part of this model.
- PCI configuration, EDID and mode lists of GopHandoff.
