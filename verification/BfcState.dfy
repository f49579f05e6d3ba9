/** The arena's state as a whole, and what splitting, merging and marking a chunk do to it. */
module BfcState {
  import opened BfcRegions
  import opened BfcChunks
  import opened BfcBins

  /** Everything the arena keeps about its chunks. */
  datatype Heap = Heap(chunks: seq<Chunk>, freeList: Handle, bins: seq<set<Handle>>, regions: seq<Region>)

  /**
   All parts agree.  `loose` are free chunks currently in no bin, and only pairs with x may be free
   neighbours; between operations both are empty.
   */
  ghost predicate Coherent(s: Heap, live: set<Handle>, recycled: seq<Handle>, loose: set<Handle>, x: Handle) {
    && Tiled(s.chunks, live, s.regions)
    && BinsOk(s.chunks, live, s.bins, loose)
    && NoTwins(s.chunks, live, x)
    && Pool(s.chunks, live, s.freeList, recycled)
  }

  lemma TiledHandles(chunks: seq<Chunk>, live: set<Handle>, regions: seq<Region>)
    requires Tiled(chunks, live, regions)
    ensures HandlesOk(chunks, live) && NONE !in live && RegionsOk(regions)
    ensures forall h :: h in live ==> 0 <= h < |chunks|
  {
  }

  lemma CoherentParts(s: Heap, live: set<Handle>, recycled: seq<Handle>, loose: set<Handle>, x: Handle)
    requires Coherent(s, live, recycled, loose, x)
    ensures Tiled(s.chunks, live, s.regions) && HandlesOk(s.chunks, live) && NONE !in live
    ensures BinsOk(s.chunks, live, s.bins, loose) && NoTwins(s.chunks, live, x)
            && Pool(s.chunks, live, s.freeList, recycled)
    ensures forall h :: h in live ==> 0 <= h < |s.chunks|
  {
    hide BinsOk, NoTwins, Pool;
  }

  /** The facts about one live chunk. */
  lemma ChunkFacts(chunks: seq<Chunk>, live: set<Handle>, regions: seq<Region>, h: Handle)
    requires Tiled(chunks, live, regions) && h in live
    ensures 0 <= h < |chunks| && Placed(regions, chunks[h]) && chunks[h].size > 0 && chunks[h].size % GRAIN == 0
    ensures HandlesOk(chunks, live) && NextOk(chunks, live, h) && PrevOk(chunks, live, h)
    ensures chunks[h].next != h && (chunks[h].next != NONE ==> 0 <= chunks[h].next < |chunks| && chunks[h].next in live)
    ensures chunks[h].prev != h && (chunks[h].prev != NONE ==> 0 <= chunks[h].prev < |chunks| && chunks[h].prev in live)
  {
    hide TableOk, ApartOk;
    assert Placed(regions, chunks[h]) && NextOk(chunks, live, h) && PrevOk(chunks, live, h);
  }

  ghost predicate SameLinks(a: Chunk, b: Chunk) {
    a.ptr == b.ptr && a.size == b.size && a.prev == b.prev && a.next == b.next
  }

  /** The tiling depends only on where the live chunks are and how they are linked. */
  lemma TiledFrame(a: seq<Chunk>, b: seq<Chunk>, live: set<Handle>, regions: seq<Region>)
    requires Tiled(a, live, regions) && HandlesOk(b, live) && forall h :: h in live ==> SameLinks(a[h], b[h])
    ensures Tiled(b, live, regions)
  {
    hide RegionsOk, Covered, HomeStart, HomeEnd, Lookup, Floor, Aligned, FirstOk;
    forall h | h in live
      ensures NextOk(b, live, h) && PrevOk(b, live, h) && Placed(regions, b[h])
    {
      assert NextOk(a, live, h) && PrevOk(a, live, h) && Placed(regions, a[h]);
    }
    forall h, k | h in live && k in live && h != k
      ensures Apart(b[h], b[k])
    {
      assert Apart(a[h], a[k]);
    }
    forall p: nat
      ensures EntryOk(b, live, regions, p)
    {
      assert EntryOk(a, live, regions, p);
    }
  }

  // ----- splitting

  function SplitInto(chunks: seq<Chunk>, h: Handle, k: Handle, n: nat): seq<Chunk>
    requires 0 <= h < |chunks| && 0 <= k < |chunks| && n <= chunks[h].size
    requires chunks[h].next != NONE ==> 0 <= chunks[h].next < |chunks|
  {
    var c := chunks[h];
    var pair := chunks[k := chunks[k].(ptr := c.ptr + n, size := c.size - n, id := -1, prev := h, next := c.next)]
                      [h := c.(size := n, next := k)];
    if c.next != NONE then pair[c.next := pair[c.next].(prev := k)] else pair
  }

  /** What is where after the split. */
  lemma SplitAt(chunks: seq<Chunk>, h: Handle, k: Handle, n: nat, i: Handle)
    requires 0 <= h < |chunks| && 0 <= k < |chunks| && n <= chunks[h].size && h != k && 0 <= i < |chunks|
    requires chunks[h].next != NONE ==> 0 <= chunks[h].next < |chunks| && chunks[h].next != h && chunks[h].next != k
    ensures var c := chunks[h];
            |SplitInto(chunks, h, k, n)| == |chunks| &&
            SplitInto(chunks, h, k, n)[i] ==
              if i == h then c.(size := n, next := k)
              else if i == k then chunks[k].(ptr := c.ptr + n, size := c.size - n, id := -1, prev := h, next := c.next)
              else if i == c.next then chunks[i].(prev := k)
              else chunks[i]
  {
  }

  lemma SplitJoins(chunks: seq<Chunk>, live: set<Handle>, regions: seq<Region>, h: Handle, k: Handle, n: nat)
    requires Tiled(chunks, live, regions) && h in live && k !in live && 0 <= k < |chunks| && 0 <= h < |chunks|
    requires 0 < n < chunks[h].size && n % GRAIN == 0 && (chunks[h].next != NONE ==> 0 <= chunks[h].next < |chunks|)
    ensures Joined(SplitInto(chunks, h, k, n), chunks, live, h, k)
  {
    hide Tiled, SplitInto, NextOk, PrevOk, Placed;
    TiledHandles(chunks, live, regions);
    ChunkFacts(chunks, live, regions, h);
    var parts := SplitInto(chunks, h, k, n);
    SplitAt(chunks, h, k, n, h);
    SplitAt(chunks, h, k, n, k);
    forall i | i in live && i != h
      ensures SameSpan(parts[i], chunks[i]) && OtherPrev(parts[i].prev, chunks[i].prev, i == chunks[h].next, h, k)
    {
      SplitAt(chunks, h, k, n, i);
      NextFact(chunks, live, regions, h);
    }
  }

  lemma NextFact(chunks: seq<Chunk>, live: set<Handle>, regions: seq<Region>, h: Handle)
    requires Tiled(chunks, live, regions) && h in live
    ensures 0 <= h < |chunks|
    ensures chunks[h].next != NONE ==> 0 <= chunks[h].next < |chunks| && chunks[chunks[h].next].prev == h
                                       && chunks[chunks[h].next].ptr == End(chunks[h])
  {
    ChunkFacts(chunks, live, regions, h);
  }

  lemma PrevFact(chunks: seq<Chunk>, live: set<Handle>, regions: seq<Region>, h: Handle)
    requires Tiled(chunks, live, regions) && h in live && 0 <= h < |chunks| && chunks[h].prev != NONE
    ensures chunks[h].prev in live && 0 <= chunks[h].prev < |chunks| && chunks[chunks[h].prev].next == h && h != NONE
            && chunks[h].prev != h
  {
    ChunkFacts(chunks, live, regions, h);
    TiledHandles(chunks, live, regions);
  }

  lemma NextsLive(chunks: seq<Chunk>, live: set<Handle>, regions: seq<Region>)
    requires Tiled(chunks, live, regions)
    ensures HandlesOk(chunks, live) && forall i :: i in live ==> chunks[i].next == NONE || chunks[i].next in live
  {
    hide Tiled;
    TiledHandles(chunks, live, regions);
    forall i | i in live
      ensures chunks[i].next == NONE || chunks[i].next in live
    {
      ChunkFacts(chunks, live, regions, i);
    }
  }

  /** k is a handle just taken from the pool; h is free, in no bin, and has no free neighbour. */
  lemma SplitCoherent(s: Heap, live: set<Handle>, recycled: seq<Handle>, h: Handle, k: Handle, n: nat)
    requires Tiled(s.chunks, live, s.regions) && BinsOk(s.chunks, live, s.bins, {h}) && NoTwins(s.chunks, live, NONE)
    requires Pool(s.chunks, live + {k}, s.freeList, recycled) && h in live && k !in live && 0 <= k < |s.chunks|
             && 0 <= h < |s.chunks|
    requires 0 < n < s.chunks[h].size && n % GRAIN == 0 && Loose(s.chunks[h]) && Loose(s.chunks[k])
    requires s.chunks[h].next != NONE ==> 0 <= s.chunks[h].next < |s.chunks|
    ensures var chunks := SplitInto(s.chunks, h, k, n);
            && |chunks| == |s.chunks|
            && Coherent(s.(chunks := chunks, regions := SetHandle(s.regions, chunks[k].ptr, k)), live + {k}, recycled,
                        {h, k}, h)
            && BytesInUse(chunks) == BytesInUse(s.chunks)
  {
    hide Tiled, SplitInto, SetHandle, Pool, BytesInUse, NextOk, PrevOk, Placed, Joined;
    var chunks := SplitInto(s.chunks, h, k, n);
    TiledHandles(s.chunks, live, s.regions);
    ChunkFacts(s.chunks, live, s.regions, h);
    SplitJoins(s.chunks, live, s.regions, h, k, n);
    SplitTiled(chunks, s.chunks, live, s.regions, h, k);
    NextsLive(s.chunks, live, s.regions);
    SplitOthers(s.chunks, live, s.bins, h, k, n);
    PoolMembers(s.chunks, live + {k}, s.freeList, recycled);
    PoolFrame(s.chunks, chunks, live + {k}, s.freeList, recycled);
    BytesSame(s.chunks, chunks);
  }

  lemma PoolMembers(chunks: seq<Chunk>, used: set<Handle>, head: Handle, list: seq<Handle>)
    requires Pool(chunks, used, head, list)
    ensures forall h :: h in list <==> 0 <= h < |chunks| && h !in used
  {
  }

  lemma SplitOthers(chunks: seq<Chunk>, live: set<Handle>, bins: seq<set<Handle>>, h: Handle, k: Handle, n: nat)
    requires HandlesOk(chunks, live) && BinsOk(chunks, live, bins, {h}) && NoTwins(chunks, live, NONE) && NONE !in live
    requires h in live && k !in live && 0 <= k < |chunks| && 0 <= h < |chunks|
    requires 0 < n < chunks[h].size && Loose(chunks[h]) && Loose(chunks[k])
    requires chunks[h].next != h && forall i :: i in live ==> chunks[i].next == NONE || chunks[i].next in live
    ensures var parts := SplitInto(chunks, h, k, n);
            && |parts| == |chunks| && HandlesOk(parts, live + {k})
            && BinsOk(parts, live + {k}, bins, {h, k}) && NoTwins(parts, live + {k}, h)
            && (forall i :: 0 <= i < |chunks| ==> Weight(parts[i]) == Weight(chunks[i]))
            && (forall i :: 0 <= i < |chunks| && i !in live + {k} ==> parts[i] == chunks[i])
  {
    hide SplitInto, BinsOk;
    var parts := SplitInto(chunks, h, k, n);
    SplitAt(chunks, h, k, n, h);
    forall i | 0 <= i < |chunks|
      ensures Weight(parts[i]) == Weight(chunks[i]) && parts[i].id == chunks[i].id && parts[i].bin == chunks[i].bin
      ensures i !in live + {k} ==> parts[i] == chunks[i]
      ensures i != h && i != k ==> parts[i].size == chunks[i].size && parts[i].next == chunks[i].next
      ensures i == h ==> parts[i].next == k
      ensures i == k ==> parts[i].next == chunks[h].next
    {
      SplitAt(chunks, h, k, n, i);
    }
    forall i, j | i in live + {k} && j in live + {k} && parts[i].next == j && !InUse(parts[i]) && !InUse(parts[j])
      ensures i == h || j == h
    {
    }
    BinsFrame(chunks, live, bins, {h}, parts, live + {k}, {h, k});
  }

  // ----- merging

  function MergeInto(chunks: seq<Chunk>, h1: Handle, h2: Handle): seq<Chunk>
    requires 0 <= h1 < |chunks| && 0 <= h2 < |chunks| && (chunks[h2].next != NONE ==> 0 <= chunks[h2].next < |chunks|)
  {
    var h3 := chunks[h2].next;
    var joined := chunks[h1 := chunks[h1].(next := h3, size := chunks[h1].size + chunks[h2].size)];
    if h3 != NONE then joined[h3 := joined[h3].(prev := h1)] else joined
  }

  lemma MergeAt(chunks: seq<Chunk>, h1: Handle, h2: Handle, i: Handle)
    requires 0 <= h1 < |chunks| && 0 <= h2 < |chunks| && 0 <= i < |chunks|
    requires chunks[h2].next != h1 && (chunks[h2].next != NONE ==> 0 <= chunks[h2].next < |chunks|)
    ensures |MergeInto(chunks, h1, h2)| == |chunks| &&
            MergeInto(chunks, h1, h2)[i] ==
              if i == h1 then chunks[h1].(next := chunks[h2].next, size := chunks[h1].size + chunks[h2].size)
              else if i == chunks[h2].next then chunks[i].(prev := h1)
              else chunks[i]
  {
  }

  /** Neighbours do not lead back. */
  lemma NextIsAhead(chunks: seq<Chunk>, live: set<Handle>, regions: seq<Region>, h1: Handle, h2: Handle)
    requires Tiled(chunks, live, regions) && h1 in live && 0 <= h1 < |chunks| && chunks[h1].next == h2 && h2 != NONE
    ensures h2 in live && h1 != h2 && 0 <= h2 < |chunks| && chunks[h2].next != h1
    ensures chunks[h2].prev == h1 && chunks[h2].ptr == End(chunks[h1])
    ensures chunks[h2].next != NONE ==> 0 <= chunks[h2].next < |chunks|
  {
    ChunkFacts(chunks, live, regions, h1);
    ChunkFacts(chunks, live, regions, h2);
    hide Tiled;
  }

  lemma MergeJoins(chunks: seq<Chunk>, live: set<Handle>, regions: seq<Region>, h1: Handle, h2: Handle)
    requires Tiled(chunks, live, regions) && h1 in live && 0 <= h1 < |chunks| && chunks[h1].next == h2 && h2 != NONE
    requires 0 <= h2 < |chunks| && (chunks[h2].next != NONE ==> 0 <= chunks[h2].next < |chunks|)
    ensures Joined(chunks, MergeInto(chunks, h1, h2), live - {h2}, h1, h2)
  {
    hide Tiled, MergeInto, NextOk, PrevOk, Placed;
    TiledHandles(chunks, live, regions);
    NextIsAhead(chunks, live, regions, h1, h2);
    ChunkFacts(chunks, live, regions, h1);
    ChunkFacts(chunks, live, regions, h2);
    NextFact(chunks, live, regions, h2);
    var whole := MergeInto(chunks, h1, h2);
    MergeAt(chunks, h1, h2, h1);
    forall i | i in live - {h2} && i != h1
      ensures SameSpan(chunks[i], whole[i]) && OtherPrev(chunks[i].prev, whole[i].prev, i == whole[h1].next, h1, h2)
    {
      MergeAt(chunks, h1, h2, i);
    }
    assert live - {h2} + {h2} == live;
  }

  /** What deleting the second of two merged chunks does: its handle goes back to the pool. */
  function Deleted(chunks: seq<Chunk>, h: Handle, head: Handle): seq<Chunk>
    requires 0 <= h < |chunks|
  {
    chunks[h := chunks[h].(next := head)]
  }

  /** Both chunks are free and in no bin. */
  lemma MergeCoherent(s: Heap, live: set<Handle>, recycled: seq<Handle>, loose: set<Handle>, x: Handle, h1: Handle,
                      h2: Handle)
    requires Coherent(s, live, recycled, loose, x) && h1 in live && 0 <= h1 < |s.chunks| && s.chunks[h1].next == h2
             && h2 != NONE
    requires h1 in loose && h2 in loose && (x == h1 || x == h2)
    requires 0 <= h2 < |s.chunks| && (s.chunks[h2].next != NONE ==> 0 <= s.chunks[h2].next < |s.chunks|)
    ensures var chunks := MergeInto(s.chunks, h1, h2);
            && |chunks| == |s.chunks|
            && Coherent(Heap(Deleted(chunks, h2, s.freeList), h2, s.bins, SetHandle(s.regions, chunks[h2].ptr, NONE)),
                        live - {h2}, [h2] + recycled, loose - {h2}, h1)
            && BytesInUse(Deleted(chunks, h2, s.freeList)) == BytesInUse(s.chunks)
  {
    hide Tiled, MergeInto, SetHandle, Pool, BytesInUse, NextOk, PrevOk, Placed, Joined, BinsOk, NoTwins;
    var chunks := MergeInto(s.chunks, h1, h2);
    TiledHandles(s.chunks, live, s.regions);
    NextIsAhead(s.chunks, live, s.regions, h1, h2);
    ChunkFacts(s.chunks, live, s.regions, h2);
    MergeJoins(s.chunks, live, s.regions, h1, h2);
    assert live - {h2} + {h2} == live;
    MergeTiled(s.chunks, chunks, live - {h2}, s.regions, h1, h2);
    MergeAt(s.chunks, h1, h2, h2);
    LooseAre(s.chunks, live, s.bins, loose, h1);
    LooseAre(s.chunks, live, s.bins, loose, h2);
    OnePredecessor(s.chunks, live, s.regions, h1, h2);
    MergeOthers(s.chunks, live, s.bins, loose, x, h1, h2, s.freeList);
    DeletedTiled(chunks, live - {h2}, SetHandle(s.regions, chunks[h2].ptr, NONE), h2, s.freeList);
    PoolMembers(s.chunks, live, s.freeList, recycled);
    PoolFrame(s.chunks, chunks, live, s.freeList, recycled);
    PoolGive(chunks, live, s.freeList, recycled, h2);
    BytesSame(s.chunks, Deleted(chunks, h2, s.freeList));
  }

  lemma OnePredecessor(chunks: seq<Chunk>, live: set<Handle>, regions: seq<Region>, h1: Handle, h2: Handle)
    requires Tiled(chunks, live, regions) && h1 in live && 0 <= h1 < |chunks| && chunks[h1].next == h2 && h2 != NONE
    ensures HandlesOk(chunks, live) && forall k :: k in live && chunks[k].next == h2 ==> k == h1
  {
    hide Tiled, Placed;
    TiledHandles(chunks, live, regions);
    NextFact(chunks, live, regions, h1);
    forall k | k in live && chunks[k].next == h2
      ensures k == h1
    {
      NextFact(chunks, live, regions, k);
    }
  }

  lemma DeletedTiled(chunks: seq<Chunk>, live: set<Handle>, regions: seq<Region>, h: Handle, head: Handle)
    requires Tiled(chunks, live, regions) && h !in live && 0 <= h < |chunks|
    ensures Tiled(Deleted(chunks, h, head), live, regions)
  {
    hide Tiled;
    TiledHandles(chunks, live, regions);
    TiledFrame(chunks, Deleted(chunks, h, head), live, regions);
  }

  lemma LooseAre(chunks: seq<Chunk>, live: set<Handle>, bins: seq<set<Handle>>, loose: set<Handle>, h: Handle)
    requires HandlesOk(chunks, live) && BinsOk(chunks, live, bins, loose) && h in live && h in loose
    ensures Loose(chunks[h])
  {
  }

  lemma MergeOthers(chunks: seq<Chunk>, live: set<Handle>, bins: seq<set<Handle>>, loose: set<Handle>, x: Handle,
                    h1: Handle, h2: Handle, head: Handle)
    requires HandlesOk(chunks, live) && BinsOk(chunks, live, bins, loose) && NoTwins(chunks, live, x)
             && (x == h1 || x == h2)
    requires h1 in live && h2 in live && h1 != h2 && h1 in loose && h2 in loose && Loose(chunks[h1])
             && Loose(chunks[h2])
    requires chunks[h2].next != h1 && chunks[h2].next != h2
    requires chunks[h2].next != NONE ==> 0 <= chunks[h2].next < |chunks| && chunks[h2].next in live
    requires forall k :: k in live && chunks[k].next == h2 ==> k == h1
    ensures var whole := Deleted(MergeInto(chunks, h1, h2), h2, head);
            && |whole| == |chunks| && HandlesOk(whole, live - {h2})
            && BinsOk(whole, live - {h2}, bins, loose - {h2}) && NoTwins(whole, live - {h2}, h1)
            && (forall i :: 0 <= i < |chunks| ==> Weight(whole[i]) == Weight(chunks[i]))
            && (forall i :: 0 <= i < |chunks| && i !in live ==> MergeInto(chunks, h1, h2)[i] == chunks[i])
            && |MergeInto(chunks, h1, h2)| == |chunks| && Loose(MergeInto(chunks, h1, h2)[h2])
  {
    hide MergeInto, BinsOk;
    var joined := MergeInto(chunks, h1, h2);
    MergeAt(chunks, h1, h2, h2);
    var whole := Deleted(joined, h2, head);
    forall i | 0 <= i < |chunks|
      ensures Weight(whole[i]) == Weight(chunks[i]) && whole[i].id == chunks[i].id && whole[i].bin == chunks[i].bin
      ensures i !in live ==> joined[i] == chunks[i]
      ensures i != h1 && i != h2 ==> whole[i].size == chunks[i].size && whole[i].next == chunks[i].next
      ensures i == h1 ==> whole[i].next == chunks[h2].next
    {
      MergeAt(chunks, h1, h2, i);
    }
    BinsFrame2(chunks, live, bins, loose, whole, h1, h2);
  }

  lemma BinsFrame2(chunks: seq<Chunk>, live: set<Handle>, bins: seq<set<Handle>>, loose: set<Handle>,
                   whole: seq<Chunk>, h1: Handle, h2: Handle)
    requires HandlesOk(chunks, live) && BinsOk(chunks, live, bins, loose) && HandlesOk(whole, live)
    requires h1 in loose && h2 in loose
    requires forall i :: i in live ==> whole[i].id == chunks[i].id && whole[i].bin == chunks[i].bin
    requires forall i :: i in live && i != h1 && i != h2 ==> whole[i].size == chunks[i].size
    ensures BinsOk(whole, live - {h2}, bins, loose - {h2})
  {
    hide BinsOk;
    forall k | k in live && k in loose
      ensures Loose(whole[k])
    {
      LooseAre(chunks, live, bins, loose, k);
    }
    BinsFrame(chunks, live, bins, loose, whole, live - {h2}, loose - {h2});
  }

  // ----- marking and binning

  /** Neither neighbour of h is free. */
  ghost predicate Walled(chunks: seq<Chunk>, live: set<Handle>, h: Handle)
    requires HandlesOk(chunks, live) && h in live
  {
    forall k :: k in live && (chunks[k].next == h || chunks[h].next == k) ==> InUse(chunks[k])
  }

  lemma WalledNoTwins(chunks: seq<Chunk>, live: set<Handle>, h: Handle)
    requires HandlesOk(chunks, live) && h in live && NoTwins(chunks, live, h) && Walled(chunks, live, h)
    ensures NoTwins(chunks, live, NONE)
  {
  }

  /** Changing only the marks of h. */
  function Marked(chunks: seq<Chunk>, h: Handle, requested: nat, id: int): seq<Chunk>
    requires 0 <= h < |chunks|
  {
    chunks[h := chunks[h].(requested := requested, id := id)]
  }

  lemma MarkKeeps(chunks: seq<Chunk>, b: seq<Chunk>, live: set<Handle>, regions: seq<Region>, head: Handle,
                  recycled: seq<Handle>, h: Handle)
    requires Tiled(chunks, live, regions) && Pool(chunks, live, head, recycled) && h in live
    requires |b| == |chunks| && 0 <= h < |b| && b == chunks[h := b[h]] && SameLinks(chunks[h], b[h])
    ensures Tiled(b, live, regions) && Pool(b, live, head, recycled)
  {
    hide Tiled, Pool;
    TiledHandles(chunks, live, regions);
    TiledFrame(chunks, b, live, regions);
    PoolMembers(chunks, live, head, recycled);
    PoolFrame(chunks, b, live, head, recycled);
  }

  lemma TakeCoherent(s: Heap, live: set<Handle>, recycled: seq<Handle>, x: Handle, h: Handle, requested: nat, id: int)
    requires Coherent(s, live, recycled, {h}, x) && h in live && 0 <= h < |s.chunks| && (x == h || x == NONE)
             && id != -1
    ensures var chunks := Marked(s.chunks, h, requested, id);
            && Coherent(s.(chunks := chunks), live, recycled, {}, NONE)
            && BytesInUse(chunks) == BytesInUse(s.chunks) + s.chunks[h].size
  {
    hide Tiled, Pool, BinsOk, BytesInUse;
    var chunks := Marked(s.chunks, h, requested, id);
    TiledHandles(s.chunks, live, s.regions);
    LooseAre(s.chunks, live, s.bins, {h}, h);
    MarkKeeps(s.chunks, chunks, live, s.regions, s.freeList, recycled, h);
    BinsFrame(s.chunks, live, s.bins, {h}, chunks, live, {});
    BytesUpdate(s.chunks, h, chunks[h]);
  }

  lemma ReleaseCoherent(s: Heap, live: set<Handle>, recycled: seq<Handle>, h: Handle)
    requires Coherent(s, live, recycled, {}, NONE) && h in live && 0 <= h < |s.chunks| && InUse(s.chunks[h])
    ensures var chunks := Marked(s.chunks, h, s.chunks[h].requested, -1);
            && Coherent(s.(chunks := chunks), live, recycled, {h}, h)
            && BytesInUse(chunks) == BytesInUse(s.chunks) - s.chunks[h].size
  {
    hide Tiled, Pool, BinsOk, BytesInUse;
    var chunks := Marked(s.chunks, h, s.chunks[h].requested, -1);
    TiledHandles(s.chunks, live, s.regions);
    BusyIsUnbinned(s.chunks, live, s.bins, {}, h);
    MarkKeeps(s.chunks, chunks, live, s.regions, s.freeList, recycled, h);
    ReleaseBins(s.chunks, live, s.bins, h);
    BytesUpdate(s.chunks, h, chunks[h]);
  }

  lemma BusyIsUnbinned(chunks: seq<Chunk>, live: set<Handle>, bins: seq<set<Handle>>, loose: set<Handle>, h: Handle)
    requires HandlesOk(chunks, live) && BinsOk(chunks, live, bins, loose) && h in live
    ensures InUse(chunks[h]) ==> chunks[h].bin == -1 && h !in loose && forall b :: 0 <= b < |bins| ==> h !in bins[b]
    ensures h !in loose && !InUse(chunks[h]) ==> chunks[h].bin != -1
  {
    assert h !in loose ==> Settled(chunks[h], bins, h);
    assert h in loose ==> Loose(chunks[h]);
    hide BinNumForSize;
  }

  lemma ReleaseBins(chunks: seq<Chunk>, live: set<Handle>, bins: seq<set<Handle>>, h: Handle)
    requires HandlesOk(chunks, live) && BinsOk(chunks, live, bins, {}) && h in live && InUse(chunks[h])
    ensures BinsOk(Marked(chunks, h, chunks[h].requested, -1), live, bins, {h})
  {
    BusyIsUnbinned(chunks, live, bins, {}, h);
    hide BinNumForSize;
    var chunks' := Marked(chunks, h, chunks[h].requested, -1);
    forall k | k in live && k !in {h}
      ensures Settled(chunks'[k], bins, k)
    {
      assert Settled(chunks[k], bins, k);
    }
    forall b, k | 0 <= b < |bins| && k in bins[b]
      ensures k in live && k !in {h} && chunks'[k].bin == b
    {
    }
  }

  lemma RemoveCoherent(s: Heap, live: set<Handle>, recycled: seq<Handle>, loose: set<Handle>, x: Handle, h: Handle)
    requires Coherent(s, live, recycled, loose, x) && h in live && 0 <= h < |s.chunks| && s.chunks[h].bin != -1
    ensures h !in loose && 0 <= s.chunks[h].bin < |s.bins| && h in s.bins[s.chunks[h].bin]
    ensures var b := s.chunks[h].bin;
            Coherent(s.(chunks := Unbinned(s.chunks, h), bins := s.bins[b := s.bins[b] - {h}]), live, recycled,
                     loose + {h}, x)
    ensures BytesInUse(Unbinned(s.chunks, h)) == BytesInUse(s.chunks)
  {
    hide Tiled, Pool, BinsOk, BytesInUse;
    TiledHandles(s.chunks, live, s.regions);
    RemoveKeepsBins(s.chunks, live, s.bins, loose, h);
    MarkKeeps(s.chunks, Unbinned(s.chunks, h), live, s.regions, s.freeList, recycled, h);
    BytesUpdate(s.chunks, h, s.chunks[h].(bin := -1));
  }

  lemma InsertCoherent(s: Heap, live: set<Handle>, recycled: seq<Handle>, loose: set<Handle>, x: Handle, h: Handle)
    requires Coherent(s, live, recycled, loose, x) && h in live && 0 <= h < |s.chunks| && h in loose
    ensures var b := BinNumForSize(s.chunks[h].size);
            var chunks := s.chunks[h := s.chunks[h].(bin := b)];
            && b < |s.bins|
            && Coherent(s.(chunks := chunks, bins := s.bins[b := s.bins[b] + {h}]), live, recycled, loose - {h}, x)
            && BytesInUse(chunks) == BytesInUse(s.chunks)
  {
    hide Tiled, Pool, BinsOk, BytesInUse, BinNumForSize;
    TiledHandles(s.chunks, live, s.regions);
    LooseAre(s.chunks, live, s.bins, loose, h);
    InsertKeepsBins(s.chunks, live, s.bins, loose, h);
    var b := BinNumForSize(s.chunks[h].size);
    MarkKeeps(s.chunks, s.chunks[h := s.chunks[h].(bin := b)], live, s.regions, s.freeList, recycled, h);
    BytesUpdate(s.chunks, h, s.chunks[h].(bin := b));
  }

  // ----- new handles and new regions

  /** The vector is the same or has grown by one fresh entry. */
  ghost predicate Grown(a: seq<Chunk>, b: seq<Chunk>) {
    b == a || b == a + [FRESH_CHUNK]
  }

  lemma GrowKeeps(a: seq<Chunk>, b: seq<Chunk>, live: set<Handle>, regions: seq<Region>, bins: seq<set<Handle>>,
                  loose: set<Handle>, x: Handle)
    requires Tiled(a, live, regions) && BinsOk(a, live, bins, loose) && NoTwins(a, live, x) && Grown(a, b)
    ensures Tiled(b, live, regions) && BinsOk(b, live, bins, loose) && NoTwins(b, live, x)
    ensures BytesInUse(b) == BytesInUse(a) && a <= b
  {
    hide Tiled, BytesInUse, BinNumForSize;
    TiledHandles(a, live, regions);
    TiledFrame(a, b, live, regions);
    BytesAppend(a, FRESH_CHUNK);
  }

  lemma ExtendCoherent(s: Heap, live: set<Handle>, recycled: seq<Handle>, k: Handle, more: seq<Chunk>)
    requires Tiled(s.chunks, live, s.regions) && BinsOk(s.chunks, live, s.bins, {}) && NoTwins(s.chunks, live, NONE)
    requires Pool(s.chunks, live + {k}, s.freeList, recycled) && k !in live && 0 <= k < |s.chunks| && Loose(s.chunks[k])
    requires |more| == |s.chunks| && more == s.chunks[k := more[k]] && Loose(more[k])
    requires more[k].prev == NONE == more[k].next && more[k].ptr > 0 && more[k].size > 0 && more[k].size % GRAIN == 0
    requires ApartFrom(s.regions, more[k].ptr, more[k].size)
    ensures Coherent(s.(chunks := more,
                        regions := SetHandle(AddRegion(s.regions, more[k].ptr, more[k].size), more[k].ptr, k)),
                     live + {k}, recycled, {k}, NONE)
    ensures BytesInUse(more) == BytesInUse(s.chunks)
  {
    hide Tiled, Pool, BinsOk, BytesInUse, SetHandle, AddRegion, ApartFrom;
    TiledHandles(s.chunks, live, s.regions);
    ExtendTiled(s.chunks, live, s.regions, more, k);
    NextsLive(s.chunks, live, s.regions);
    BinsFrame(s.chunks, live, s.bins, {}, more, live + {k}, {k});
    PoolMembers(s.chunks, live + {k}, s.freeList, recycled);
    PoolFrame(s.chunks, more, live + {k}, s.freeList, recycled);
    BytesUpdate(s.chunks, k, more[k]);
  }

  // ----- grants

  ghost predicate SameGrant(a: Chunk, b: Chunk) {
    a.ptr == b.ptr && a.size == b.size && a.requested == b.requested && a.id == b.id
  }

  ghost predicate Granted(chunks: seq<Chunk>, live: set<Handle>, h: Handle) {
    h in live && 0 <= h < |chunks| && InUse(chunks[h])
  }

  /** Chunk k is granted before exactly when it is granted after, and is then the same grant. */
  ghost predicate KeepsGrant(a: seq<Chunk>, live: set<Handle>, b: seq<Chunk>, live': set<Handle>, k: Handle) {
    && (Granted(a, live, k) <==> Granted(b, live', k))
    && (Granted(a, live, k) ==> SameGrant(a[k], b[k]))
  }

  /** Nobody's grant changes, except those of the handles named. */
  ghost predicate KeepsGrants(a: seq<Chunk>, live: set<Handle>, b: seq<Chunk>, live': set<Handle>, but: set<Handle>) {
    forall k :: k !in but ==> KeepsGrant(a, live, b, live', k)
  }

  lemma KeepsOne(a: seq<Chunk>, la: set<Handle>, b: seq<Chunk>, lb: set<Handle>, but: set<Handle>, k: Handle)
    requires KeepsGrants(a, la, b, lb, but) && k !in but
    ensures Granted(a, la, k) <==> Granted(b, lb, k)
    ensures Granted(a, la, k) ==> SameGrant(a[k], b[k])
  {
    assert KeepsGrant(a, la, b, lb, k);
  }

  lemma KeepsTransitive(a: seq<Chunk>, la: set<Handle>, b: seq<Chunk>, lb: set<Handle>, c: seq<Chunk>, lc: set<Handle>,
                        but: set<Handle>)
    requires KeepsGrants(a, la, b, lb, {}) || KeepsGrants(a, la, b, lb, but)
    requires KeepsGrants(b, lb, c, lc, {}) || KeepsGrants(b, lb, c, lc, but)
    ensures KeepsGrants(a, la, c, lc, but)
  {
    forall k | k !in but
      ensures KeepsGrant(a, la, c, lc, k)
    {
      assert KeepsGrant(a, la, b, lb, k) && KeepsGrant(b, lb, c, lc, k);
    }
  }

  lemma SplitKeepsGrants(chunks: seq<Chunk>, live: set<Handle>, regions: seq<Region>, h: Handle, k: Handle, n: nat)
    requires Tiled(chunks, live, regions) && h in live && k !in live && 0 <= k < |chunks| && 0 <= h < |chunks|
    requires n <= chunks[h].size && Loose(chunks[h]) && Loose(chunks[k])
             && (chunks[h].next != NONE ==> 0 <= chunks[h].next < |chunks|)
    ensures KeepsGrants(chunks, live, SplitInto(chunks, h, k, n), live + {k}, {})
  {
    hide Tiled, SplitInto;
    ChunkFacts(chunks, live, regions, h);
    SplitAt(chunks, h, k, n, h);
    forall i | i !in {}
      ensures KeepsGrant(chunks, live, SplitInto(chunks, h, k, n), live + {k}, i)
    {
      if 0 <= i < |chunks| { SplitAt(chunks, h, k, n, i); }
    }
  }

  lemma MergeKeepsGrants(chunks: seq<Chunk>, live: set<Handle>, h1: Handle, h2: Handle, head: Handle)
    requires 0 <= h1 < |chunks| && 0 <= h2 < |chunks| && Loose(chunks[h1]) && Loose(chunks[h2]) && h2 in live
    requires chunks[h2].next != h1 && (chunks[h2].next != NONE ==> 0 <= chunks[h2].next < |chunks|)
    ensures |MergeInto(chunks, h1, h2)| == |chunks|
    ensures KeepsGrants(chunks, live, Deleted(MergeInto(chunks, h1, h2), h2, head), live - {h2}, {})
  {
    hide MergeInto;
    MergeAt(chunks, h1, h2, h2);
    forall i | i !in {}
      ensures KeepsGrant(chunks, live, Deleted(MergeInto(chunks, h1, h2), h2, head), live - {h2}, i)
    {
      if 0 <= i < |chunks| { MergeAt(chunks, h1, h2, i); }
    }
  }

  /** Growing the vector, or moving a chunk in or out of a bin, changes no grant. */
  lemma GrowKeepsGrants(a: seq<Chunk>, b: seq<Chunk>, live: set<Handle>)
    requires a <= b && HandlesOk(a, live)
    ensures KeepsGrants(a, live, b, live, {})
  {
    forall k | k !in {}
      ensures KeepsGrant(a, live, b, live, k)
    {
    }
  }

  lemma MarkKeepsGrants(a: seq<Chunk>, b: seq<Chunk>, live: set<Handle>, h: Handle)
    requires |a| == |b| && 0 <= h < |a| && b == a[h := b[h]]
    ensures KeepsGrants(a, live, b, live, {h})
  {
    forall k | k !in {h}
      ensures KeepsGrant(a, live, b, live, k)
    {
    }
  }

  lemma BinningKeepsGrants(a: seq<Chunk>, b: seq<Chunk>, live: set<Handle>, h: Handle)
    requires |a| == |b| && 0 <= h < |a| && b == a[h := a[h].(bin := b[h].bin)]
    ensures KeepsGrants(a, live, b, live, {})
  {
    forall k | k !in {}
      ensures KeepsGrant(a, live, b, live, k)
    {
    }
  }

  // ----- neighbours of a freed chunk

  /** If h's successor is free, the one after it is not. */
  lemma NextButOneBusy(chunks: seq<Chunk>, live: set<Handle>, regions: seq<Region>, h: Handle)
    requires Tiled(chunks, live, regions) && HandlesOk(chunks, live) && NoTwins(chunks, live, h) && h in live
             && 0 <= h < |chunks|
    requires chunks[h].next != NONE && 0 <= chunks[h].next < |chunks| && !InUse(chunks[chunks[h].next])
    ensures chunks[chunks[h].next].next == NONE || Granted(chunks, live, chunks[chunks[h].next].next)
  {
    hide Tiled;
    NextIsAhead(chunks, live, regions, h, chunks[h].next);
    ChunkFacts(chunks, live, regions, chunks[h].next);
  }

  lemma PrevButOneBusy(chunks: seq<Chunk>, live: set<Handle>, regions: seq<Region>, h: Handle)
    requires Tiled(chunks, live, regions) && HandlesOk(chunks, live) && NoTwins(chunks, live, h) && h in live
             && 0 <= h < |chunks|
    requires chunks[h].prev != NONE && 0 <= chunks[h].prev < |chunks| && !InUse(chunks[chunks[h].prev])
    ensures chunks[chunks[h].prev].prev == NONE || Granted(chunks, live, chunks[chunks[h].prev].prev)
  {
    hide Tiled;
    var p := chunks[h].prev;
    ChunkFacts(chunks, live, regions, h);
    ChunkFacts(chunks, live, regions, p);
    if chunks[p].prev != NONE {
      ChunkFacts(chunks, live, regions, chunks[p].prev);
      NextIsAhead(chunks, live, regions, chunks[p].prev, p);
    }
  }

  lemma BusyNeighboursWall(chunks: seq<Chunk>, live: set<Handle>, regions: seq<Region>, h: Handle)
    requires Tiled(chunks, live, regions) && HandlesOk(chunks, live) && NoTwins(chunks, live, h) && h in live
    requires chunks[h].next == NONE || Granted(chunks, live, chunks[h].next)
    requires chunks[h].prev == NONE || Granted(chunks, live, chunks[h].prev)
    ensures NoTwins(chunks, live, NONE)
  {
    hide Tiled, NoTwins;
    TiledHandles(chunks, live, regions);
    forall k | k in live && (chunks[k].next == h || chunks[h].next == k)
      ensures InUse(chunks[k])
    {
      NextFact(chunks, live, regions, k);
    }
    WalledNoTwins(chunks, live, h);
  }

  lemma CoherentAgain(s: Heap, live: set<Handle>, recycled: seq<Handle>, loose: set<Handle>, h: Handle)
    requires Coherent(s, live, recycled, loose, h) && 0 <= h < |s.chunks| && h in live
    requires s.chunks[h].next == NONE || Granted(s.chunks, live, s.chunks[h].next)
    requires s.chunks[h].prev == NONE || Granted(s.chunks, live, s.chunks[h].prev)
    ensures Coherent(s, live, recycled, loose, NONE)
  {
    hide Tiled, NoTwins, BinsOk, Pool, Granted;
    TiledHandles(s.chunks, live, s.regions);
    BusyNeighboursWall(s.chunks, live, s.regions, h);
  }

  lemma ExtendKeepsGrants(a: seq<Chunk>, live: set<Handle>, b: seq<Chunk>, h: Handle)
    requires |a| == |b| && 0 <= h < |a| && b == a[h := b[h]] && h !in live && !InUse(b[h])
    ensures KeepsGrants(a, live, b, live + {h}, {})
  {
    forall k | k !in {}
      ensures KeepsGrant(a, live, b, live + {h}, k)
    {
    }
  }
}
