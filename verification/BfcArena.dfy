/** The best-fit-with-coalescing arena. */
module BfcArena {
  import opened BfcRegions
  import opened BfcChunks
  import opened BfcBins
  import opened BfcState
  import opened BfcSizes
  import opened BfcPolicy

  /** Asks for nine tenths again and again until the device grants it or it is not enough. */
  method Backpedal(bytes: nat, rounded: nat, device: Device) returns (ptr: nat, less: nat)
    requires bytes % GRAIN == 0 && 0 < rounded <= bytes < WORD && WillReturn(device, bytes, rounded)
    ensures ptr != 0 ==>
              exists k: nat ::
                k > 0 && less == Asked(bytes, k) && ptr == device(k, less) && RefusedBefore(device, bytes, k)
    ensures ptr != 0 ==> rounded <= less <= bytes && less % GRAIN == 0
    ensures ptr == 0 <==> GivesUp(device, bytes, rounded)
  {
    hide Shrink, GivesUp;
    ptr, less := 0, bytes;
    ghost var granted: nat :=
      if rounded > BACKPEDAL_FLOOR then 0 else var k: nat :| k > 0 && GrantsAt(device, bytes, k); k;
    var k: nat := 1;
    while ptr == 0
      invariant less == Asked(bytes, k - 1) && less % GRAIN == 0 && rounded <= less <= bytes && k > 0
      invariant ptr != 0 ==> k > 1 && ptr == device(k - 1, less) && RefusedBefore(device, bytes, k - 1)
      invariant ptr == 0 ==> RefusedBefore(device, bytes, k)
      invariant rounded <= BACKPEDAL_FLOOR && ptr == 0 ==> k <= granted
      decreases if ptr == 0 then 1 else 0, if rounded > BACKPEDAL_FLOOR then less else granted - k
    {
      ShrinkProgress(less);
      less := Shrink(less);
      assert less == Asked(bytes, k);
      if less < rounded {
        GaveUp(device, bytes, rounded, k);
        return;
      }
      ptr := device(k, less);
      k := k + 1;
    }
    GrantedNotGivenUp(device, bytes, rounded, k - 1);
  }

  lemma GaveUp(device: Device, bytes: nat, rounded: nat, k: nat)
    requires k > 0 && Asked(bytes, k) < rounded && RefusedBefore(device, bytes, k)
    ensures GivesUp(device, bytes, rounded)
  {
  }

  class BFCArena {
    const memoryLimit: nat
    var chunks: seq<Chunk>
    var freeList: Handle
    var bins: seq<set<Handle>>
    var regions: seq<Region>
    var reserved: map<nat, nat>
    var numAllocs: nat
    var bytesInUse: nat
    var totalAllocated: nat
    var maxBytesInUse: nat
    var maxAllocSize: nat
    var nextId: int
    var currRegionBytes: nat
    var backpedaled: bool

    /** Handles that stand for memory, and the list of handles that do not. */
    ghost var live: set<Handle>
    ghost var recycled: seq<Handle>

    ghost predicate Valid()
      reads this
    {
      ArenaOk(Heap(chunks, freeList, bins, regions), live, recycled,
              Books(reserved, nextId, bytesInUse, totalAllocated, maxBytesInUse, memoryLimit, currRegionBytes))
    }

    constructor (totalMemory: nat)
      requires totalMemory < WORD
      ensures Valid() && memoryLimit == totalMemory && live == {} && reserved == map[]
      ensures bytesInUse == 0 && totalAllocated == 0
    {
      currRegionBytes := RoundedBytes(Min(totalMemory, 1048576));
      memoryLimit := totalMemory;
      chunks, freeList, bins, regions := [], NONE, seq(NUM_BINS, _ => {}), [];
      reserved, nextId, backpedaled := map[], 1, false;
      numAllocs, bytesInUse, totalAllocated, maxBytesInUse, maxAllocSize := 0, 0, 0, 0, 0;
      live, recycled := {}, [];
      EmptyCoherent();
      RoundedIsEnough(Min(totalMemory, 1048576));
      new;
      assert Total(map[]) == 0;
    }

    // ----- handles

    method AllocateChunk() returns (h: Handle)
      requires Pool(chunks, live, freeList, recycled) && HandlesOk(chunks, live)
      modifies this`chunks, this`freeList, this`recycled
      ensures 0 <= h < |chunks| && h !in live && Loose(chunks[h]) && Grown(old(chunks), chunks)
      ensures Pool(chunks, live + {h}, freeList, recycled)
    {
      hide Pool;
      if freeList != NONE {
        PoolTake(chunks, live, freeList, recycled);
        h := freeList;
        freeList := chunks[h].next;
        recycled := recycled[1..];
      } else {
        PoolMembers(chunks, live, freeList, recycled);
        PoolGrow(chunks, live, freeList, recycled, FRESH_CHUNK);
        h := |chunks|;
        chunks := chunks + [FRESH_CHUNK];
      }
    }

    method DeallocateChunk(h: Handle)
      requires 0 <= h < |chunks|
      modifies this`chunks, this`freeList, this`recycled
      ensures chunks == Deleted(old(chunks), h, old(freeList)) && freeList == h && recycled == [h] + old(recycled)
    {
      chunks := chunks[h := chunks[h].(next := freeList)];
      freeList := h;
      recycled := [h] + recycled;
    }

    // ----- bins

    method InsertFreeChunkIntoBin(h: Handle, ghost loose: set<Handle>, ghost x: Handle)
      requires Coherent(Heap(chunks, freeList, bins, regions), live, recycled, loose, x) && h in live
               && 0 <= h < |chunks| && h in loose
      modifies this`chunks, this`bins
      ensures Coherent(Heap(chunks, freeList, bins, regions), live, recycled, loose - {h}, x)
      ensures |chunks| == |old(chunks)|
              && chunks == old(chunks)[h := old(chunks)[h].(bin := BinNumForSize(old(chunks)[h].size))]
      ensures BytesInUse(chunks) == old(BytesInUse(chunks)) && KeepsGrants(old(chunks), live, chunks, live, {})
    {
      hide *;
      InsertCoherent(Heap(chunks, freeList, bins, regions), live, recycled, loose, x, h);
      var binNum := BinNumForSize(chunks[h].size);
      chunks := chunks[h := chunks[h].(bin := binNum)];
      bins := bins[binNum := bins[binNum] + {h}];
      BinningKeepsGrants(old(chunks), chunks, live, h);
    }

    method RemoveFreeChunkFromBin(h: Handle, ghost loose: set<Handle>, ghost x: Handle)
      requires Coherent(Heap(chunks, freeList, bins, regions), live, recycled, loose, x) && h in live
               && 0 <= h < |chunks|
      requires chunks[h].bin != -1
      modifies this`chunks, this`bins
      ensures Coherent(Heap(chunks, freeList, bins, regions), live, recycled, loose + {h}, x) && h !in loose
      ensures chunks == Unbinned(old(chunks), h)
      ensures BytesInUse(chunks) == old(BytesInUse(chunks)) && KeepsGrants(old(chunks), live, chunks, live, {})
    {
      hide BytesInUse, Coherent, KeepsGrants;
      RemoveCoherent(Heap(chunks, freeList, bins, regions), live, recycled, loose, x, h);
      bins := bins[chunks[h].bin := bins[chunks[h].bin] - {h}];
      chunks := chunks[h := chunks[h].(bin := -1)];
      BinningKeepsGrants(old(chunks), chunks, live, h);
    }

    // ----- splitting and merging

    /** Cuts a free chunk in two; the rear part goes into a bin. */
    method SplitChunk(h: Handle, numBytes: nat)
      requires Coherent(Heap(chunks, freeList, bins, regions), live, recycled, {h}, NONE) && h in live
               && 0 <= h < |chunks|
      requires 0 < numBytes < chunks[h].size && numBytes % GRAIN == 0
      modifies this`chunks, this`freeList, this`recycled, this`regions, this`bins, this`live
      ensures Coherent(Heap(chunks, freeList, bins, regions), live, recycled, {h}, h) && old(live) <= live
      ensures 0 <= h < |chunks| && chunks[h].size == numBytes && chunks[h].ptr == old(chunks)[h].ptr
      ensures KeepsGrants(old(chunks), old(live), chunks, live, {})
      ensures BytesInUse(chunks) == old(BytesInUse(chunks)) && SameRanges(old(regions), regions)
    {
      hide Coherent, Tiled, BinsOk, NoTwins, Pool, HandlesOk, NextOk, PrevOk, Placed, BytesInUse, SetHandle,
        SameRanges, KeepsGrants, BinNumForSize;
      ghost var chunks0 := chunks;
      CoherentParts(Heap(chunks, freeList, bins, regions), live, recycled, {h}, NONE);
      var k := AllocateChunk();
      GrowKeeps(chunks0, chunks, live, regions, bins, {h}, NONE);
      ghost var s := Heap(chunks, freeList, bins, regions);
      ChunkFacts(chunks, live, regions, h);
      LooseAre(chunks, live, bins, {h}, h);
      SplitCoherent(s, live, recycled, h, k, numBytes);
      SplitKeepsGrants(chunks, live, regions, h, k, numBytes);
      SplitAt(chunks, h, k, numBytes, h);
      SplitAt(chunks, h, k, numBytes, k);
      GrowKeepsGrants(chunks0, chunks, live);
      SetSameRanges(regions, chunks[h].ptr + numBytes, k);

      var c := chunks[h];
      chunks := chunks[k := chunks[k].(ptr := c.ptr + numBytes, size := c.size - numBytes, id := -1, prev := h,
                                       next := c.next)];
      regions := SetHandle(regions, chunks[k].ptr, k);
      chunks := chunks[h := c.(size := numBytes, next := k)];
      if c.next != NONE {
        chunks := chunks[c.next := chunks[c.next].(prev := k)];
      }
      assert chunks == SplitInto(s.chunks, h, k, numBytes);
      ghost var parts, mid := chunks, live;
      live := live + {k};
      InsertFreeChunkIntoBin(k, {h, k}, h);
      assert {h, k} - {k} == {h};
      KeepsTransitive(chunks0, mid, s.chunks, mid, parts, live, {});
      KeepsTransitive(chunks0, mid, parts, live, chunks, live, {});
    }
  
    /** Joins a free chunk with its free successor, whose handle is recycled. */
    method Merge(h1: Handle, h2: Handle, ghost loose: set<Handle>, ghost x: Handle)
      requires Coherent(Heap(chunks, freeList, bins, regions), live, recycled, loose, x)
      requires h1 in live && 0 <= h1 < |chunks| && chunks[h1].next == h2 && h2 != NONE
      requires h1 in loose && h2 in loose && (x == h1 || x == h2)
      modifies this`chunks, this`freeList, this`recycled, this`regions, this`live
      ensures Coherent(Heap(chunks, freeList, bins, regions), live, recycled, loose - {h2}, h1)
      ensures live == old(live) - {h2} && h1 in live && |chunks| == |old(chunks)|
      ensures chunks[h1].prev == old(chunks)[h1].prev && 0 <= h2 < |chunks| && chunks[h1].next == old(chunks)[h2].next
      ensures KeepsGrants(old(chunks), old(live), chunks, live, {})
      ensures BytesInUse(chunks) == old(BytesInUse(chunks)) && SameRanges(old(regions), regions)
    {
      hide Coherent, Tiled, BinsOk, NoTwins, Pool, HandlesOk, NextOk, PrevOk, Placed, BytesInUse, SetHandle,
        SameRanges, KeepsGrants;
      ghost var s := Heap(chunks, freeList, bins, regions);
      CoherentParts(s, live, recycled, loose, x);
      NextIsAhead(chunks, live, regions, h1, h2);
      MergeCoherent(s, live, recycled, loose, x, h1, h2);
      LooseAre(chunks, live, bins, loose, h1);
      LooseAre(chunks, live, bins, loose, h2);
      MergeKeepsGrants(chunks, live, h1, h2, freeList);
      MergeAt(chunks, h1, h2, h2);

      var h3 := chunks[h2].next;
      chunks := chunks[h1 := chunks[h1].(next := h3, size := chunks[h1].size + chunks[h2].size)];
      if h3 != NONE {
        chunks := chunks[h3 := chunks[h3].(prev := h1)];
      }
      SetSameRanges(regions, chunks[h2].ptr, NONE);
      regions := SetHandle(regions, chunks[h2].ptr, NONE);
      live := live - {h2};
      DeallocateChunk(h2);
    }
  
    /** Joins the chunk just freed with its successor, if that is free. */
    method JoinNext(h: Handle)
      requires Coherent(Heap(chunks, freeList, bins, regions), live, recycled, {h}, h) && h in live && 0 <= h < |chunks|
      modifies this`chunks, this`freeList, this`recycled, this`regions, this`live, this`bins
      ensures Coherent(Heap(chunks, freeList, bins, regions), live, recycled, {h}, h) && h in live && 0 <= h < |chunks|
      ensures chunks[h].next == NONE || Granted(chunks, live, chunks[h].next)
      ensures KeepsGrants(old(chunks), old(live), chunks, live, {})
      ensures BytesInUse(chunks) == old(BytesInUse(chunks)) && SameRanges(old(regions), regions)
    {
      hide Coherent, Tiled, BinsOk, NoTwins, Pool, HandlesOk, NextOk, PrevOk, Placed, BytesInUse, SameRanges,
        KeepsGrants;
      ghost var s, live0 := Heap(chunks, freeList, bins, regions), live;
      CoherentParts(s, live, recycled, {h}, h);
      ChunkFacts(chunks, live, regions, h);
      var next := chunks[h].next;
      if next != NONE && !InUse(chunks[next]) {
        NextButOneBusy(chunks, live, regions, h);
        NextIsAhead(chunks, live, regions, h, next);
        BusyIsUnbinned(chunks, live, bins, {h}, next);
        RemoveFreeChunkFromBin(next, {h}, h);
        ghost var chunks1 := chunks;
        Merge(h, next, {h} + {next}, h);
        assert {h} + {next} - {next} == {h};
        KeepsTransitive(s.chunks, live0, chunks1, live0, chunks, live, {});
        KeepsOne(s.chunks, live0, chunks, live, {}, chunks[h].next);
      } else {
        GrowKeepsGrants(chunks, chunks, live);
        RangesReflexive(regions);
      }
    }

    /** Joins the freed chunk with its predecessor, if that is free; f is the chunk that remains. */
    method JoinPrev(h: Handle) returns (f: Handle)
      requires Coherent(Heap(chunks, freeList, bins, regions), live, recycled, {h}, h) && h in live && 0 <= h < |chunks|
      requires chunks[h].next == NONE || Granted(chunks, live, chunks[h].next)
      modifies this`chunks, this`freeList, this`recycled, this`regions, this`live, this`bins
      ensures Coherent(Heap(chunks, freeList, bins, regions), live, recycled, {f}, NONE) && f in live
              && 0 <= f < |chunks|
      ensures KeepsGrants(old(chunks), old(live), chunks, live, {})
      ensures BytesInUse(chunks) == old(BytesInUse(chunks)) && SameRanges(old(regions), regions)
    {
      hide Coherent, Tiled, BinsOk, NoTwins, Pool, HandlesOk, NextOk, PrevOk, Placed, BytesInUse, SameRanges,
        KeepsGrants;
      ghost var s, live0 := Heap(chunks, freeList, bins, regions), live;
      CoherentParts(s, live, recycled, {h}, h);
      ChunkFacts(chunks, live, regions, h);
      var prev := chunks[h].prev;
      f := h;
      if prev != NONE && !InUse(chunks[prev]) {
        f := prev;
        PrevFact(chunks, live, regions, h);
        PrevButOneBusy(chunks, live, regions, h);
        BusyIsUnbinned(chunks, live, bins, {h}, prev);
        RemoveFreeChunkFromBin(prev, {h}, h);
        ghost var chunks1 := chunks;
        Merge(prev, h, {h} + {prev}, h);
        assert {h} + {prev} - {h} == {prev};
        KeepsTransitive(s.chunks, live0, chunks1, live0, chunks, live, {});
        KeepsOne(s.chunks, live0, chunks, live, {}, chunks[f].next);
        KeepsOne(s.chunks, live0, chunks, live, {}, chunks[f].prev);
      } else {
        GrowKeepsGrants(chunks, chunks, live);
        RangesReflexive(regions);
      }
      CoherentAgain(Heap(chunks, freeList, bins, regions), live, recycled, {f}, f);
    }

    /** Frees a chunk and joins it with whichever neighbours are free. */
    method FreeAndMaybeCoalesce(h: Handle)
      requires Coherent(Heap(chunks, freeList, bins, regions), live, recycled, {}, NONE) && Granted(chunks, live, h)
      requires bytesInUse >= chunks[h].size
      modifies this`chunks, this`freeList, this`recycled, this`regions, this`live, this`bins, this`bytesInUse
      ensures Coherent(Heap(chunks, freeList, bins, regions), live, recycled, {}, NONE)
      ensures !Granted(chunks, live, h) && KeepsGrants(old(chunks), old(live), chunks, live, {h})
      ensures BytesInUse(chunks) == old(BytesInUse(chunks)) - old(chunks)[h].size
      ensures bytesInUse == old(bytesInUse) - old(chunks)[h].size && SameRanges(old(regions), regions)
    {
      hide Coherent, Tiled, BinsOk, NoTwins, Pool, HandlesOk, NextOk, PrevOk, Placed, BytesInUse, SameRanges,
        KeepsGrants, BinNumForSize;
      ReleaseCoherent(Heap(chunks, freeList, bins, regions), live, recycled, h);
      bytesInUse := bytesInUse - chunks[h].size;
      chunks := chunks[h := chunks[h].(id := -1)];
      ghost var chunks0, live0, regions0 := old(chunks), live, regions;
      ghost var chunks1 := chunks;
      MarkKeepsGrants(chunks0, chunks, live, h);
      JoinNext(h);
      ghost var chunks2, live2, regions2 := chunks, live, regions;
      var f := JoinPrev(h);
      ghost var chunks3, live3, regions3 := chunks, live, regions;
      InsertFreeChunkIntoBin(f, {f}, NONE);
      assert {f} - {f} == {};
      KeepsOne(chunks1, live0, chunks2, live2, {}, h);
      KeepsOne(chunks2, live2, chunks3, live3, {}, h);
      KeepsOne(chunks3, live3, chunks, live, {}, h);
      KeepsTransitive(chunks0, live0, chunks1, live0, chunks2, live2, {h});
      KeepsTransitive(chunks0, live0, chunks2, live2, chunks3, live3, {h});
      KeepsTransitive(chunks0, live0, chunks3, live3, chunks, live, {h});
      RangesTransitive(regions0, regions2, regions);
    }
  
    // ----- best fit

    /** Goes through one bin in its order and returns the first chunk that is large enough. */
    method FirstFit(b: nat, bytes: nat) returns (h: Handle)
      requires Coherent(Heap(chunks, freeList, bins, regions), live, recycled, {}, NONE) && b < |bins|
      ensures h == NONE ==> NoFit(chunks, bins[b], bytes)
      ensures h != NONE ==> h in bins[b] && 0 <= h < |chunks| && chunks[h].size >= bytes
      ensures h != NONE ==>
                forall k ::
                  k in bins[b] && 0 <= k < |chunks| && chunks[k].size >= bytes ==> Before(chunks[h], chunks[k])
    {
      hide Coherent;
      BinMembers(Heap(chunks, freeList, bins, regions), live, recycled, b);
      var rest := bins[b];
      while rest != {}
        invariant rest <= bins[b]
        invariant forall k :: k in bins[b] && k !in rest ==> chunks[k].size < bytes
        decreases |rest|
      {
        FirstExists(chunks, rest);
        h :| h in rest && forall k :: k in rest ==> Before(chunks[h], chunks[k]);
        if chunks[h].size >= bytes {
          return;
        }
        rest := rest - {h};
      }
      h := NONE;
    }

    /** Goes through the bins from the given one on. */
    method FindFreeChunk(binNum: nat, rounded: nat) returns (h: Handle)
      requires Coherent(Heap(chunks, freeList, bins, regions), live, recycled, {}, NONE)
               && binNum == BinNumForSize(rounded)
      ensures h != NONE <==> SomeFit(chunks, live, rounded)
      ensures h != NONE ==> BestFit(chunks, live, rounded, h)
    {
      hide Coherent, BestFit, BinNumForSize, Before;
      ghost var s := Heap(chunks, freeList, bins, regions);
      BinCount(s, live, recycled);
      var b := binNum;
      while b < NUM_BINS
        invariant binNum <= b <= NUM_BINS
        invariant forall c :: binNum <= c < b ==> NoFit(chunks, bins[c], rounded)
      {
        h := FirstFit(b, rounded);
        if h != NONE {
          FirstFitIsBest(s, live, recycled, rounded, b, h);
          BestFits(chunks, live, rounded, h);
          return;
        }
        b := b + 1;
      }
      NothingFits(s, live, recycled, rounded);
      h := NONE;
    }

    /** Cuts off what is too much of a free chunk and marks the rest as in use. */
    method GrantChunk(h: Handle, rounded: nat, numBytes: nat) returns (p: nat)
      requires Coherent(Heap(chunks, freeList, bins, regions), live, recycled, {h}, NONE) && h in live
               && 0 <= h < |chunks|
      requires rounded == RoundedBytes(numBytes) && numBytes > 0 && 0 < rounded <= chunks[h].size
               && rounded % GRAIN == 0 && nextId > 0
      modifies this`chunks, this`freeList, this`recycled, this`regions, this`live, this`bins
      modifies this`nextId, this`numAllocs, this`bytesInUse, this`maxBytesInUse, this`maxAllocSize
      ensures Coherent(Heap(chunks, freeList, bins, regions), live, recycled, {}, NONE)
      ensures p != 0 && p == old(chunks)[h].ptr && GrantedAs(chunks, live, h, p, numBytes, old(nextId))
              && GrantOk(chunks[h])
      ensures KeepsGrants(old(chunks), old(live), chunks, live, {h}) && SameRanges(old(regions), regions)
      ensures BytesInUse(chunks) == old(BytesInUse(chunks)) + chunks[h].size
              && bytesInUse == old(bytesInUse) + chunks[h].size
      ensures nextId == old(nextId) + 1 && numAllocs == old(numAllocs) + 1
      ensures maxAllocSize == Max(old(maxAllocSize), chunks[h].size)
              && maxBytesInUse == Max(old(maxBytesInUse), bytesInUse)
      ensures CutOrWhole(old(chunks)[h].size, rounded, chunks[h].size)
    {
      hide Coherent, BytesInUse, KeepsGrants, RoundedBytes, SameRanges, GrantOk, Tiled, BinsOk, NoTwins, Pool;
      ghost var chunks0, live0 := chunks, live;
      RangesReflexive(regions);
      CoherentParts(Heap(chunks, freeList, bins, regions), live, recycled, {h}, NONE);
      GrowKeepsGrants(chunks, chunks, live);
      ghost var x := NONE;
      if chunks[h].size >= rounded * 2 || chunks[h].size - rounded >= MAX_INTERNAL_FRAGMENTATION {
        SplitChunk(h, rounded);
        x := h;
      }
      ghost var chunks1 := chunks;
      TakeCoherent(Heap(chunks, freeList, bins, regions), live, recycled, x, h, numBytes, nextId);
      PtrNotNull(Heap(chunks, freeList, bins, regions), live, recycled, {h}, x, h);
      chunks := chunks[h := chunks[h].(requested := numBytes, id := nextId)];
      nextId := nextId + 1;
      numAllocs := numAllocs + 1;
      bytesInUse := bytesInUse + chunks[h].size;
      maxBytesInUse := Max(maxBytesInUse, bytesInUse);
      maxAllocSize := Max(maxAllocSize, chunks[h].size);
      p := chunks[h].ptr;
      MarkKeepsGrants(chunks1, chunks, live, h);
      KeepsTransitive(chunks0, live0, chunks1, live, chunks, live, {h});
      WasteOk(chunks[h], rounded);
    }

    /** Takes the best fit out of its bin and grants it. */
    method FindChunkPtr(binNum: nat, rounded: nat, numBytes: nat) returns (p: nat, ghost chosen: Handle)
      requires Valid() && binNum == BinNumForSize(rounded) && rounded == RoundedBytes(numBytes)
      requires numBytes > 0 && rounded > 0 && rounded % GRAIN == 0
      modifies this`chunks, this`freeList, this`recycled, this`regions, this`live, this`bins
      modifies this`nextId, this`numAllocs, this`bytesInUse, this`maxBytesInUse, this`maxAllocSize
      ensures Valid()
      ensures p != 0 <==> SomeFit(old(chunks), old(live), rounded)
      ensures p == 0 ==> chunks == old(chunks) && live == old(live) && regions == old(regions) && bins == old(bins)
      ensures p == 0 ==> bytesInUse == old(bytesInUse) && nextId == old(nextId) && numAllocs == old(numAllocs)
      ensures p == 0 ==> maxAllocSize == old(maxAllocSize) && maxBytesInUse == old(maxBytesInUse)
      ensures p != 0 ==>
                BestFit(old(chunks), old(live), rounded, chosen)
                && GrantedAs(chunks, live, chosen, p, numBytes, old(nextId))
      ensures p != 0 ==> p == old(chunks)[chosen].ptr && bytesInUse == old(bytesInUse) + chunks[chosen].size
                         && CutOrWhole(old(chunks)[chosen].size, rounded, chunks[chosen].size)
      ensures p != 0 ==> KeepsGrants(old(chunks), old(live), chunks, live, {chosen}) && nextId == old(nextId) + 1
      ensures p != 0 ==> numAllocs == old(numAllocs) + 1 && maxAllocSize == Max(old(maxAllocSize), chunks[chosen].size)
      ensures p != 0 ==> maxBytesInUse == Max(old(maxBytesInUse), bytesInUse) && SameRanges(old(regions), regions)
    {
      hide Coherent, BestFit, SomeFit, BinNumForSize, BooksOk, BytesInUse, KeepsGrants, RoundedBytes, SameRanges,
        GrantsOk, GrantOk,
        Granted, Tiled, BinsOk, NoTwins, Pool, ReservedOk;
      ghost var s, live0, b0 := Heap(chunks, freeList, bins, regions), live,
        Books(reserved, nextId, bytesInUse, totalAllocated, maxBytesInUse, memoryLimit, currRegionBytes);
      p, chosen := 0, NONE;
      var h := FindFreeChunk(binNum, rounded);
      if h == NONE {
        return;
      }
      chosen := h;
      BestFits(chunks, live, rounded, h);
      BooksFacts(s, live, b0);
      CoherentParts(s, live, recycled, {}, NONE);
      BusyIsUnbinned(chunks, live, bins, {}, h);
      RemoveFreeChunkFromBin(h, {}, NONE);
      assert {} + {h} == {h};
      ghost var chunks1 := chunks;
      p := GrantChunk(h, rounded, numBytes);
      KeepsTransitive(s.chunks, live0, chunks1, live0, chunks, live, {h});
      GrantBooks(s, live0, b0, Heap(chunks, freeList, bins, regions), live, h, bytesInUse, maxBytesInUse);
    }

    // ----- growing

    /** Adds a region that the device has granted, as one free chunk. */
    method AddMemory(mem: nat, bytes: nat, curr: nat) returns (ghost k: Handle)
      requires Valid() && mem > 0 && bytes > 0 && bytes % GRAIN == 0 && curr > 0 && curr % GRAIN == 0
      requires ApartFrom(regions, mem, bytes) && ApartFromReserved(reserved, mem, bytes)
      modifies this`chunks, this`freeList, this`recycled, this`regions, this`live, this`bins, this`totalAllocated
      modifies this`currRegionBytes
      ensures Valid() && totalAllocated == old(totalAllocated) + bytes && currRegionBytes == curr
      ensures k !in old(live) && live == old(live) + {k} && Fits(chunks, live, bytes, k) && chunks[k].ptr == mem
              && chunks[k].size == bytes
      ensures KeepsGrants(old(chunks), old(live), chunks, live, {}) && OthersSame(old(chunks), old(live), chunks)
    {
      hide Coherent, BooksOk, BytesInUse, KeepsGrants, SameRanges, Pool, Tiled, BinsOk, NoTwins, ApartFrom,
        ApartFromReserved, SetHandle, AddRegion, BinNumForSize, HandlesOk;
      ghost var s, live0, b0 := Heap(chunks, freeList, bins, regions), live,
        Books(reserved, nextId, bytesInUse, totalAllocated, maxBytesInUse, memoryLimit, currRegionBytes);
      CoherentParts(s, live, recycled, {}, NONE);
      currRegionBytes := curr;
      totalAllocated := totalAllocated + bytes;
      var h := AllocateChunk();
      k := h;
      GrowKeeps(s.chunks, chunks, live, regions, bins, {}, NONE);
      GrowKeepsGrants(s.chunks, chunks, live);
      ghost var chunks1, freeList1 := chunks, freeList;
      chunks := chunks[h := chunks[h].(ptr := mem, size := bytes, id := -1, prev := NONE, next := NONE)];
      regions := AddRegion(regions, mem, bytes);
      regions := SetHandle(regions, mem, h);
      ExtendCoherent(Heap(chunks1, freeList, bins, s.regions), live, recycled, h, chunks);
      ExtendKeepsGrants(chunks1, live, chunks, h);
      live := live + {h};
      ghost var chunks2 := chunks;
      InsertFreeChunkIntoBin(h, {h}, NONE);
      assert {h} - {h} == {};
      KeepsTransitive(s.chunks, live0, chunks1, live0, chunks2, live, {});
      KeepsTransitive(s.chunks, live0, chunks2, live, chunks, live, {});
      ExtendBooks(s, live0, b0, Heap(chunks, freeList, bins, regions), live, mem, bytes, h, curr);
    }
  
    /** One request, and if it is the first ever to be refused, smaller ones. */
    method AskDevice(bytes: nat, rounded: nat, device: Device) returns (mem: nat, got: nat)
      requires bytes % GRAIN == 0 && 0 < rounded <= bytes < WORD
      requires backpedaled || device(0, bytes) != 0 || WillReturn(device, bytes, rounded)
      requires HandsOutFresh(device, regions, reserved)
      modifies this`backpedaled
      ensures mem != 0 ==> rounded <= got <= bytes && got % GRAIN == 0
      ensures mem != 0 ==> ApartFrom(regions, mem, got) && ApartFromReserved(reserved, mem, got)
      ensures device(0, bytes) != 0 ==> mem == device(0, bytes) && got == bytes && backpedaled == old(backpedaled)
      ensures device(0, bytes) == 0 ==> backpedaled
      ensures mem == 0 <==> device(0, bytes) == 0 && (old(backpedaled) || GivesUp(device, bytes, rounded))
      ensures device(0, bytes) == 0 && mem != 0 ==> FirstGranted(device, bytes, mem, got)
      ensures mem != 0 ==> DeviceGave(device, got, mem)
    {
      hide HandsOutFresh, ApartFrom, ApartFromReserved, Asked, Shrink, WillReturn, GivesUp;
      got := bytes;
      mem := device(0, bytes);
      FreshAt(device, regions, reserved, 0, bytes);
      if mem == 0 && !backpedaled {
        backpedaled := true;
        mem, got := Backpedal(bytes, rounded, device);
        if mem != 0 {
          ghost var n: nat
            :| n > 0 && got == Asked(bytes, n) && mem == device(n, got) && RefusedBefore(device, bytes, n);
          FreshAt(device, regions, reserved, n, got);
        }
      }
    }

    /**
     Gets a new region that can hold the request, within what the limit leaves.  Asks for the current
     region size, doubled until it is enough, and backs off once if the device refuses.
     */
    method Extend(rounded: nat, device: Device) returns (ok: bool, ghost k: Handle)
      requires Valid() && rounded > 0 && rounded % GRAIN == 0
      requires ExtendReturns(device, memoryLimit, totalAllocated, currRegionBytes, backpedaled, rounded)
      requires HandsOutFresh(device, regions, reserved)
      modifies this`chunks, this`freeList, this`recycled, this`regions, this`live, this`bins
      modifies this`totalAllocated, this`currRegionBytes, this`backpedaled
      ensures Valid() && KeepsGrants(old(chunks), old(live), chunks, live, {})
      ensures ok ==> k !in old(live) && live == old(live) + {k} && Fits(chunks, live, rounded, k)
                     && OthersSame(old(chunks), old(live), chunks) && DeviceGave(device, chunks[k].size, chunks[k].ptr)
      ensures ok ==>
                totalAllocated == old(totalAllocated) + chunks[k].size
                && chunks[k].size <= Available(memoryLimit, old(totalAllocated))
      ensures !ok ==>
                chunks == old(chunks) && live == old(live) && regions == old(regions)
                && totalAllocated == old(totalAllocated)
      ensures old(totalAllocated) <= memoryLimit ==> totalAllocated <= memoryLimit
      ensures rounded > Available(memoryLimit, old(totalAllocated)) ==>
                !ok && currRegionBytes == old(currRegionBytes) && backpedaled == old(backpedaled)
      ensures rounded <= Available(memoryLimit, old(totalAllocated)) ==>
                && old(currRegionBytes) > 0
                && var wanted := Doubled(old(currRegionBytes), rounded);
                && var bytes := Min(wanted, Available(memoryLimit, old(totalAllocated)));
                && var first := device(0, bytes);
                && currRegionBytes == (if ok && wanted == old(currRegionBytes) then 2 * wanted else wanted)
                && (first != 0 ==>
                      ok && chunks[k].ptr == first && chunks[k].size == bytes && backpedaled == old(backpedaled))
                && (first == 0 ==> backpedaled)
                && (first == 0 && ok ==> FirstGranted(device, bytes, chunks[k].ptr, chunks[k].size))
                && (!ok <==> first == 0 && (old(backpedaled) || GivesUp(device, bytes, rounded)))
    {
      hide Coherent, BooksOk, KeepsGrants, HandsOutFresh, ApartFrom, ApartFromReserved, Available, WillReturn, Fits,
        GivesUp, FirstGranted, DeviceGave, OthersSame, Tiled, BinsOk, NoTwins, Pool, GrantsOk, ReservedOk, HandlesOk;
      ghost var s, b0 := Heap(chunks, freeList, bins, regions),
        Books(reserved, nextId, bytesInUse, totalAllocated, maxBytesInUse, memoryLimit, currRegionBytes);
      BooksFacts(s, live, b0);
      CoherentParts(s, live, recycled, {}, NONE);
      GrowKeepsGrants(chunks, chunks, live);
      ok, k := false, NONE;
      var available := Available(memoryLimit, totalAllocated);
      AvailableIsGrains(memoryLimit, totalAllocated);
      if totalAllocated <= memoryLimit { AvailableWithinLimit(memoryLimit, totalAllocated); }
      if rounded > available {
        return;
      }
      var increased := false;
      while rounded > currRegionBytes
        invariant currRegionBytes > 0 && currRegionBytes % GRAIN == 0
                  && increased == (currRegionBytes != old(currRegionBytes))
        invariant currRegionBytes >= old(currRegionBytes) > 0
                  && Doubled(currRegionBytes, rounded) == Doubled(old(currRegionBytes), rounded)
        modifies this`currRegionBytes
        decreases rounded - currRegionBytes
      {
        TwiceGrains(currRegionBytes);
        currRegionBytes := currRegionBytes * 2;
        increased := true;
      }
      CurrBooks(s, live, b0, currRegionBytes);
      var bytes := Min(currRegionBytes, available);
      var mem;
      mem, bytes := AskDevice(bytes, rounded, device);
      if mem == 0 {
        return;
      }
      TwiceGrains(currRegionBytes);
      k := AddMemory(mem, bytes, if increased then currRegionBytes else currRegionBytes * 2);
      FitsLess(chunks, live, bytes, rounded, k);
      ok := true;
    }

    // ----- the interface

    method Alloc(size: nat, device: Device) returns (p: nat, ghost h: Handle)
      requires Valid() && size <= WORD - GRAIN && HandsOutFresh(device, regions, reserved)
      requires size == 0 || SomeFit(chunks, live, RoundedBytes(size))
               || ExtendReturns(device, memoryLimit, totalAllocated, currRegionBytes, backpedaled, RoundedBytes(size))
      modifies this
      ensures Valid() && reserved == old(reserved)
      ensures size == 0 ==>
                p == 0 && chunks == old(chunks) && live == old(live) && totalAllocated == old(totalAllocated)
      ensures p == 0 ==> nextId == old(nextId) && numAllocs == old(numAllocs) && maxAllocSize == old(maxAllocSize)
      ensures p != 0 ==> nextId == old(nextId) + 1 && numAllocs == old(numAllocs) + 1
      ensures p == 0 ==> KeepsGrants(old(chunks), old(live), chunks, live, {}) && bytesInUse == old(bytesInUse)
      ensures p != 0 ==> GrantedAs(chunks, live, h, p, size, old(nextId)) && GrantOk(chunks[h])
      ensures p != 0 ==> KeepsGrants(old(chunks), old(live), chunks, live, {h}) && !Granted(old(chunks), old(live), h)
      ensures p != 0 ==>
                bytesInUse == old(bytesInUse) + chunks[h].size && maxBytesInUse == Max(old(maxBytesInUse), bytesInUse)
      ensures p != 0 ==> maxAllocSize == Max(old(maxAllocSize), chunks[h].size)
      ensures size > 0 && SomeFit(old(chunks), old(live), RoundedBytes(size)) ==>
                p != 0 && BestFit(old(chunks), old(live), RoundedBytes(size), h) && p == old(chunks)[h].ptr
                && CutOrWhole(old(chunks)[h].size, RoundedBytes(size), chunks[h].size)
                && totalAllocated == old(totalAllocated)
      ensures p != 0 && !SomeFit(old(chunks), old(live), RoundedBytes(size)) ==>
                h !in old(live) && totalAllocated > old(totalAllocated)
                && DeviceGave(device, totalAllocated - old(totalAllocated), p)
      ensures size > 0 && old(totalAllocated) + RoundedBytes(size) <= memoryLimit && GrantsAll(device) ==> p != 0
      ensures !SomeFit(old(chunks), old(live), RoundedBytes(size)) ==>
                old(totalAllocated) <= memoryLimit < old(totalAllocated) + RoundedBytes(size) ==> p == 0
      ensures p == 0 <==> size == 0 || NoRoom(device, old(chunks), old(live), memoryLimit, old(totalAllocated),
                                              old(currRegionBytes), old(backpedaled), RoundedBytes(size))
      ensures old(totalAllocated) <= memoryLimit ==> totalAllocated <= memoryLimit
    {
      hide ArenaOk, KeepsGrants, BestFit, SomeFit, RoundedBytes, Available, HandsOutFresh, BinNumForSize, GrantOk,
        Granted, SameRanges, WillReturn, GivesUp, CutOrWhole, GrantsAll, FirstGranted, OthersSame,
        DeviceGave;
      p, h := 0, NONE;
      ghost var chunks0, live0 := chunks, live;
      ArenaHandles(Heap(chunks, freeList, bins, regions), live, recycled,
                   Books(reserved, nextId, bytesInUse, totalAllocated, maxBytesInUse, memoryLimit, currRegionBytes));
      GrowKeepsGrants(chunks, chunks, live);
      if size == 0 {
        return;
      }
      var rounded := RoundedBytes(size);
      RoundedIsEnough(size);
      if totalAllocated <= memoryLimit {
        RoomExactlyIf(device, chunks, live, memoryLimit, totalAllocated, currRegionBytes, backpedaled, rounded);
      }
      p, h := FindChunkPtr(BinNumForSize(rounded), rounded, size);
      if p != 0 {
        BestNotGranted(chunks0, live0, rounded, h);
      } else {
        var extended: bool;
        ghost var k;
        extended, k := Extend(rounded, device);
        if extended {
          FitsLess(chunks, live, rounded, rounded, k);
          ghost var chunks1, live1 := chunks, live;
          p, h := FindChunkPtr(BinNumForSize(rounded), rounded, size);
          BestNotGranted(chunks1, live1, rounded, h);
          OnlyNewFits(chunks0, live0, chunks1, live1, k, rounded, h);
          KeepsOne(chunks0, live0, chunks1, live1, {}, h);
          KeepsTransitive(chunks0, live0, chunks1, live1, chunks, live, {h});
        }
      }
      if p != 0 {
        ArenaGrant(Heap(chunks, freeList, bins, regions), live, recycled,
                   Books(reserved, nextId, bytesInUse, totalAllocated, maxBytesInUse, memoryLimit, currRegionBytes), h);
      }
    }

    /** Memory straight from the device, not counted against the limit; a refusal is recorded like a grant. */
    method Reserve(size: nat, device: Device) returns (p: nat, ok: bool)
      requires Valid() && HandsOutFresh(device, regions, reserved)
      modifies this`reserved, this`bytesInUse, this`numAllocs, this`maxAllocSize, this`maxBytesInUse
      modifies this`totalAllocated
      ensures Valid()
      ensures !ok <==> size > 0 && device(0, size) in old(reserved)
      ensures size == 0 || !ok ==>
                p == 0 && reserved == old(reserved) && bytesInUse == old(bytesInUse)
                && totalAllocated == old(totalAllocated)
      ensures size > 0 && ok ==> p == device(0, size) && reserved == old(reserved)[p := size]
      ensures size > 0 && ok ==> bytesInUse == old(bytesInUse) + size && totalAllocated == old(totalAllocated) + size
      ensures size > 0 && ok ==> numAllocs == old(numAllocs) + 1 && maxAllocSize == Max(old(maxAllocSize), size)
      ensures size > 0 && ok ==> maxBytesInUse == Max(old(maxBytesInUse), bytesInUse)
      ensures p != 0 ==> ApartFrom(regions, p, size) && ApartFromReserved(old(reserved), p, size)
    {
      hide Coherent, BooksOk, HandsOutFresh, ApartFrom, ApartFromReserved;
      p, ok := 0, true;
      if size == 0 {
        return;
      }
      FreshAt(device, regions, reserved, 0, size);
      var ptr := device(0, size);
      if ptr in reserved {
        ok := false;
        return;
      }
      ReserveBooks(Heap(chunks, freeList, bins, regions), live,
                   Books(reserved, nextId, bytesInUse, totalAllocated, maxBytesInUse, memoryLimit, currRegionBytes),
                   ptr, size, Max(maxBytesInUse, bytesInUse + size));
      reserved := reserved[ptr := size];
      bytesInUse := bytesInUse + size;
      numAllocs := numAllocs + 1;
      maxAllocSize := Max(maxAllocSize, size);
      maxBytesInUse := Max(maxBytesInUse, bytesInUse);
      totalAllocated := totalAllocated + size;
      p := ptr;
    }

    /** Frees a reservation or the chunk at the grain of p; anything else is refused. */
    method Free(p: nat) returns (ok: bool)
      requires Valid()
      modifies this
      ensures Valid()
      ensures ok <==> p == 0 || p in old(reserved) || Granted(old(chunks), old(live), Lookup(old(regions), p))
      ensures p == 0 || !ok ==>
                chunks == old(chunks) && live == old(live) && reserved == old(reserved) && bytesInUse == old(bytesInUse)
      ensures p != 0 && p in old(reserved) ==>
                chunks == old(chunks) && live == old(live) && reserved == old(reserved) - {p}
      ensures p != 0 && p in old(reserved) ==> bytesInUse == old(bytesInUse) - old(reserved)[p]
      ensures p != 0 && p in old(reserved) ==> totalAllocated == old(totalAllocated) - old(reserved)[p]
      ensures p != 0 && p !in old(reserved) && ok ==>
                var h := Lookup(old(regions), p);
                && 0 <= h < |old(chunks)| && old(chunks)[h].ptr == Floor(old(regions), p) && !Granted(chunks, live, h)
                && KeepsGrants(old(chunks), old(live), chunks, live, {h}) && reserved == old(reserved)
                && bytesInUse == old(bytesInUse) - old(chunks)[h].size && totalAllocated == old(totalAllocated)
    {
      hide Coherent, BooksOk, Lookup, Floor, KeepsGrants, SameRanges, BytesInUse;
      ok := true;
      if p == 0 {
        return;
      }
      ghost var s, live0, b0 := Heap(chunks, freeList, bins, regions), live,
        Books(reserved, nextId, bytesInUse, totalAllocated, maxBytesInUse, memoryLimit, currRegionBytes);
      if p in reserved {
        UnreserveBooks(s, live, b0, p);
        bytesInUse := bytesInUse - reserved[p];
        totalAllocated := totalAllocated - reserved[p];
        reserved := reserved - {p};
      } else {
        var h := Lookup(regions, p);
        LookupFinds(s, live, recycled, p);
        if h == NONE || !InUse(chunks[h]) {
          ok := false;
          return;
        }
        ArenaGrant(s, live, recycled, b0, h);
        FreeAndMaybeCoalesce(h);
        ReleaseBooks(s, live0, b0, Heap(chunks, freeList, bins, regions), live, h);
      }
    }
  }
}
