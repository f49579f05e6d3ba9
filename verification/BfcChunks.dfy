/**
 Chunks, linked by handle to their neighbours, tile the regions.  `live` are the handles of chunks
 that stand for memory; the other entries of the chunk vector wait to be recycled.
 */
module BfcChunks {
  import opened BfcRegions

  /** `id` is -1 while the chunk is not in use, `bin` is -1 while it is in no bin. */
  datatype Chunk = Chunk(size: nat, requested: nat, id: int, ptr: nat, prev: Handle, next: Handle, bin: int)

  const FRESH_CHUNK := Chunk(0, 0, -1, 0, NONE, NONE, -1)

  function End(c: Chunk): nat {
    c.ptr + c.size
  }

  predicate InUse(c: Chunk) {
    c.id != -1
  }

  ghost predicate HandlesOk(chunks: seq<Chunk>, live: set<Handle>) {
    forall h :: h in live ==> 0 <= h < |chunks|
  }

  /** The successor link is mutual and leads to the chunk that starts where this one ends. */
  ghost predicate NextOk(chunks: seq<Chunk>, live: set<Handle>, h: Handle)
    requires HandlesOk(chunks, live) && h in live
  {
    var n := chunks[h].next;
    n != NONE ==> n in live && chunks[n].prev == h && chunks[n].ptr == End(chunks[h])
  }

  ghost predicate PrevOk(chunks: seq<Chunk>, live: set<Handle>, h: Handle)
    requires HandlesOk(chunks, live) && h in live
  {
    var p := chunks[h].prev;
    p != NONE ==> p in live && chunks[p].next == h && End(chunks[p]) == chunks[h].ptr
  }

  ghost predicate Aligned(base: nat, p: nat) {
    base <= p && (p - base) % GRAIN == 0
  }

  /** Whole grains inside one region; only the ends of the region lack a neighbour. */
  ghost predicate Placed(regions: seq<Region>, c: Chunk) {
    && c.size > 0 && c.size % GRAIN == 0
    && Covered(regions, c.ptr) && Aligned(HomeStart(regions, c.ptr), c.ptr) && End(c) <= HomeEnd(regions, c.ptr)
    && (c.next == NONE <==> End(c) == HomeEnd(regions, c.ptr))
    && (c.prev == NONE <==> c.ptr == HomeStart(regions, c.ptr))
  }

  ghost predicate Apart(a: Chunk, b: Chunk) {
    End(a) <= b.ptr || End(b) <= a.ptr
  }

  ghost predicate LinksOk(chunks: seq<Chunk>, live: set<Handle>)
    requires HandlesOk(chunks, live)
  {
    forall h :: h in live ==> NextOk(chunks, live, h) && PrevOk(chunks, live, h)
  }

  ghost predicate PlacesOk(chunks: seq<Chunk>, live: set<Handle>, regions: seq<Region>)
    requires HandlesOk(chunks, live)
  {
    forall h :: h in live ==> Placed(regions, chunks[h])
  }

  ghost predicate ApartOk(chunks: seq<Chunk>, live: set<Handle>)
    requires HandlesOk(chunks, live)
  {
    forall h, k :: h in live && k in live && h != k ==> Apart(chunks[h], chunks[k])
  }

  /** An entry of the table names the live chunk that starts at that grain. */
  ghost predicate EntryOk(chunks: seq<Chunk>, live: set<Handle>, regions: seq<Region>, p: nat)
    requires HandlesOk(chunks, live)
  {
    var h := Lookup(regions, p);
    h != NONE ==> h in live && chunks[h].ptr == Floor(regions, p)
  }

  /** The tables hold exactly the starts of the live chunks. */
  ghost predicate EntriesOk(chunks: seq<Chunk>, live: set<Handle>, regions: seq<Region>)
    requires HandlesOk(chunks, live)
  {
    && (forall h :: h in live ==> Lookup(regions, chunks[h].ptr) == h)
    && (forall p :: EntryOk(chunks, live, regions, p))
  }

  /** Every region, except perhaps the one at q, has a chunk at its start. */
  ghost predicate FirstOk(regions: seq<Region>, q: nat) {
    forall p :: Covered(regions, p) ==> Lookup(regions, HomeStart(regions, p)) != NONE || HomeStart(regions, p) == q
  }

  ghost predicate TableOk(chunks: seq<Chunk>, live: set<Handle>, regions: seq<Region>)
    requires HandlesOk(chunks, live)
  {
    EntriesOk(chunks, live, regions) && FirstOk(regions, 0)
  }

  ghost predicate Tiled(chunks: seq<Chunk>, live: set<Handle>, regions: seq<Region>) {
    && RegionsOk(regions) && HandlesOk(chunks, live) && NONE !in live
    && LinksOk(chunks, live) && PlacesOk(chunks, live, regions) && ApartOk(chunks, live)
    && TableOk(chunks, live, regions)
  }

  // ----- two neighbours and the chunk they make

  ghost predicate SameSpan(a: Chunk, b: Chunk) {
    a.ptr == b.ptr && a.size == b.size && a.next == b.next
  }

  /** `whole` differs from `parts` in that h2 has been merged into its predecessor h1. */
  ghost predicate Joined(parts: seq<Chunk>, whole: seq<Chunk>, live: set<Handle>, h1: Handle, h2: Handle) {
    && HandlesOk(whole, live) && HandlesOk(parts, live + {h2}) && h1 in live && h2 !in live && h2 != NONE
    && parts[h1].ptr == whole[h1].ptr && parts[h1].prev == whole[h1].prev && parts[h1].next == h2
    && parts[h2].ptr == End(parts[h1]) && parts[h2].prev == h1 && parts[h2].next == whole[h1].next
    && End(parts[h2]) == End(whole[h1])
    && parts[h1].size > 0 && parts[h2].size > 0 && parts[h1].size % GRAIN == 0
    && (forall k :: k in live && k != h1 ==>
          SameSpan(parts[k], whole[k]) && OtherPrev(parts[k].prev, whole[k].prev, k == whole[h1].next, h1, h2))
  }

  ghost predicate OtherPrev(p: Handle, w: Handle, after: bool, h1: Handle, h2: Handle) {
    if after then p == h2 && w == h1 else p == w
  }

  lemma JoinedOther(parts: seq<Chunk>, whole: seq<Chunk>, live: set<Handle>, h1: Handle, h2: Handle, k: Handle)
    requires Joined(parts, whole, live, h1, h2) && k in live && k != h1
    ensures SameSpan(parts[k], whole[k]) && OtherPrev(parts[k].prev, whole[k].prev, k == whole[h1].next, h1, h2)
  {
  }

  lemma JoinedTwo(parts: seq<Chunk>, whole: seq<Chunk>, live: set<Handle>, h1: Handle, h2: Handle)
    requires Joined(parts, whole, live, h1, h2)
    ensures HandlesOk(whole, live) && HandlesOk(parts, live + {h2}) && h1 in live && h2 !in live && h2 != NONE
    ensures parts[h1].ptr == whole[h1].ptr && parts[h1].prev == whole[h1].prev && parts[h1].next == h2
    ensures parts[h2].ptr == End(parts[h1]) && parts[h2].prev == h1 && parts[h2].next == whole[h1].next
    ensures End(parts[h2]) == End(whole[h1])
    ensures parts[h1].size > 0 && parts[h2].size > 0 && parts[h1].size % GRAIN == 0
  {
  }

  lemma SplitLink(parts: seq<Chunk>, whole: seq<Chunk>, live: set<Handle>, h1: Handle, h2: Handle, k: Handle)
    requires Joined(parts, whole, live, h1, h2) && NONE !in live && LinksOk(whole, live) && k in live + {h2}
    ensures NextOk(parts, live + {h2}, k) && PrevOk(parts, live + {h2}, k)
  {
    hide Joined;
    JoinedTwo(parts, whole, live, h1, h2);
    assert NextOk(whole, live, h1) && PrevOk(whole, live, h1);
    if k in live {
      assert NextOk(whole, live, k) && PrevOk(whole, live, k);
      var n, p := whole[k].next, whole[k].prev;
      if k != h1 { JoinedOther(parts, whole, live, h1, h2, k); }
      if n in live && n != h1 { JoinedOther(parts, whole, live, h1, h2, n); }
      if p in live && p != h1 { JoinedOther(parts, whole, live, h1, h2, p); }
    } else {
      var n := whole[h1].next;
      if n in live && n != h1 { JoinedOther(parts, whole, live, h1, h2, n); }
    }
  }

  lemma MergeLink(parts: seq<Chunk>, whole: seq<Chunk>, live: set<Handle>, h1: Handle, h2: Handle, k: Handle)
    requires Joined(parts, whole, live, h1, h2) && NONE !in live && LinksOk(parts, live + {h2}) && k in live
    ensures NextOk(whole, live, k) && PrevOk(whole, live, k)
  {
    hide Joined;
    JoinedTwo(parts, whole, live, h1, h2);
    assert NextOk(parts, live + {h2}, h2) && PrevOk(parts, live + {h2}, h1);
    assert NextOk(parts, live + {h2}, k) && PrevOk(parts, live + {h2}, k);
    var n, p := whole[k].next, whole[k].prev;
    if k != h1 { JoinedOther(parts, whole, live, h1, h2, k); }
    if n in live && n != h1 { JoinedOther(parts, whole, live, h1, h2, n); }
    if p in live && p != h1 { JoinedOther(parts, whole, live, h1, h2, p); }
  }

  lemma Divides(a: nat, b: nat)
    requires a % GRAIN == 0
    ensures (a + b) % GRAIN == 0 <==> b % GRAIN == 0
  {
  }

  /** The second part lies in the same region as the first. */
  lemma JoinedHome(parts: seq<Chunk>, whole: seq<Chunk>, live: set<Handle>, regions: seq<Region>, h1: Handle,
                   h2: Handle)
    requires RegionsOk(regions) && Joined(parts, whole, live, h1, h2) && Covered(regions, whole[h1].ptr)
    requires End(parts[h1]) < HomeEnd(regions, whole[h1].ptr)
    ensures Covered(regions, parts[h2].ptr) && HomeStart(regions, parts[h2].ptr) == HomeStart(regions, whole[h1].ptr)
    ensures HomeEnd(regions, parts[h2].ptr) == HomeEnd(regions, whole[h1].ptr)
    ensures HomeStart(regions, parts[h2].ptr) < parts[h2].ptr
  {
    hide RegionsOk, Covered, HomeStart, HomeEnd;
    CoveredBy(regions, whole[h1].ptr);
    SameHome(regions, whole[h1].ptr, parts[h2].ptr);
  }

  lemma SplitPlaced(parts: seq<Chunk>, whole: seq<Chunk>, live: set<Handle>, regions: seq<Region>, h1: Handle,
                    h2: Handle, k: Handle)
    requires RegionsOk(regions) && NONE !in live
    requires Joined(parts, whole, live, h1, h2) && PlacesOk(whole, live, regions) && k in live + {h2}
    ensures Placed(regions, parts[k])
  {
    hide Joined, RegionsOk, Covered, HomeStart, HomeEnd;
    JoinedTwo(parts, whole, live, h1, h2);
    var base := HomeStart(regions, whole[h1].ptr);
    assert Placed(regions, whole[h1]);
    JoinedHome(parts, whole, live, regions, h1, h2);
    if k == h2 {
      Divides(parts[h1].size, parts[h2].size);
      Divides(parts[h1].size, parts[h1].ptr - base);
    } else if k != h1 {
      JoinedOther(parts, whole, live, h1, h2, k);
      assert Placed(regions, whole[k]);
    }
  }

  lemma MergePlaced(parts: seq<Chunk>, whole: seq<Chunk>, live: set<Handle>, regions: seq<Region>, h1: Handle,
                    h2: Handle, k: Handle)
    requires RegionsOk(regions) && NONE !in live
    requires Joined(parts, whole, live, h1, h2) && PlacesOk(parts, live + {h2}, regions) && k in live
    ensures Placed(regions, whole[k])
  {
    hide Joined, RegionsOk, Covered, HomeStart, HomeEnd;
    JoinedTwo(parts, whole, live, h1, h2);
    assert Placed(regions, parts[h1]) && Placed(regions, parts[h2]);
    JoinedHome(parts, whole, live, regions, h1, h2);
    if k == h1 {
      Divides(parts[h1].size, parts[h2].size);
    } else {
      JoinedOther(parts, whole, live, h1, h2, k);
      assert Placed(regions, parts[k]);
    }
  }

  lemma SplitApart(parts: seq<Chunk>, whole: seq<Chunk>, live: set<Handle>, h1: Handle, h2: Handle, j: Handle,
                   k: Handle)
    requires Joined(parts, whole, live, h1, h2) && ApartOk(whole, live) && j in live + {h2} && k in live + {h2}
             && j != k
    ensures Apart(parts[j], parts[k])
  {
    hide Joined;
    JoinedTwo(parts, whole, live, h1, h2);
    if j in live && j != h1 {
      JoinedOther(parts, whole, live, h1, h2, j);
      assert Apart(whole[j], whole[h1]);
    }
    if k in live && k != h1 {
      JoinedOther(parts, whole, live, h1, h2, k);
      assert Apart(whole[k], whole[h1]);
    }
  }

  lemma MergeApart(parts: seq<Chunk>, whole: seq<Chunk>, live: set<Handle>, h1: Handle, h2: Handle, j: Handle,
                   k: Handle)
    requires Joined(parts, whole, live, h1, h2) && ApartOk(parts, live + {h2}) && j in live && k in live && j != k
    requires forall h :: h in live ==> parts[h].size > 0
    ensures Apart(whole[j], whole[k])
  {
    hide Joined;
    JoinedTwo(parts, whole, live, h1, h2);
    assert Apart(parts[j], parts[k]);
    if j != h1 {
      JoinedOther(parts, whole, live, h1, h2, j);
      assert Apart(parts[j], parts[h2]) && Apart(parts[j], parts[h1]);
    }
    if k != h1 {
      JoinedOther(parts, whole, live, h1, h2, k);
      assert Apart(parts[k], parts[h2]) && Apart(parts[k], parts[h1]);
    }
  }

  // ----- the table

  lemma FloorOfStart(regions: seq<Region>, p: nat)
    requires RegionsOk(regions) && Covered(regions, p) && Aligned(HomeStart(regions, p), p)
    ensures Floor(regions, p) == p
  {
    hide RegionsOk, Covered, HomeStart;
  }

  lemma HomeOfHome(regions: seq<Region>, p: nat)
    requires RegionsOk(regions) && Covered(regions, p)
    ensures Floor(regions, HomeStart(regions, p)) == HomeStart(regions, p)
    ensures HomeStart(regions, HomeStart(regions, p)) == HomeStart(regions, p)
  {
    CoveredBy(regions, p);
    SameHome(regions, p, HomeStart(regions, p));
    hide RegionsOk, Covered, HomeStart;
  }

  /** Two live chunks that do not overlap do not start at the same place. */
  lemma StartsDiffer(a: Chunk, b: Chunk)
    requires Apart(a, b) && a.size > 0 && b.size > 0
    ensures a.ptr != b.ptr
  {
  }

  /** Writing handle h at the start of its chunk. */
  lemma TableSet(chunks: seq<Chunk>, live: set<Handle>, regions: seq<Region>, more: seq<Chunk>, h: Handle)
    requires RegionsOk(regions) && HandlesOk(chunks, live) && EntriesOk(chunks, live, regions)
    requires h != NONE && HandlesOk(more, live + {h}) && PlacesOk(more, live + {h}, regions)
             && ApartOk(more, live + {h})
    requires h !in live && forall k :: k in live ==> more[k].ptr == chunks[k].ptr
    requires FirstOk(regions, 0) || FirstOk(regions, more[h].ptr)
    ensures TableOk(more, live + {h}, SetHandle(regions, more[h].ptr, h))
  {
    hide RegionsOk, Covered, HomeStart, HomeEnd, Lookup, Floor, SetHandle, Aligned;
    var q := more[h].ptr;
    var regions' := SetHandle(regions, q, h);
    assert Placed(regions, more[h]);
    FloorOfStart(regions, q);
    forall k | k in live + {h}
      ensures Lookup(regions', more[k].ptr) == k
    {
      SetLookup(regions, q, h, more[k].ptr);
      assert Placed(regions, more[k]);
      FloorOfStart(regions, more[k].ptr);
      if k != h { StartsDiffer(more[k], more[h]); }
    }
    forall p: nat
      ensures EntryOk(more, live + {h}, regions', p)
    {
      SetLookup(regions, q, h, p);
      SameBounds(regions, q, h, p);
      assert EntryOk(chunks, live, regions, p);
    }
    forall p: nat | Covered(regions', p)
      ensures Lookup(regions', HomeStart(regions', p)) != NONE
    {
      SameBounds(regions, q, h, p);
      SetLookup(regions, q, h, HomeStart(regions, p));
      HomeOfHome(regions, p);
      CoveredBy(regions, p);
    }
  }

  /** Erasing the entry of chunk h, which is not the first of its region. */
  lemma TableErase(chunks: seq<Chunk>, live: set<Handle>, regions: seq<Region>, fewer: seq<Chunk>, h: Handle)
    requires RegionsOk(regions) && HandlesOk(chunks, live) && TableOk(chunks, live, regions)
    requires PlacesOk(chunks, live, regions) && ApartOk(chunks, live)
    requires h in live && HandlesOk(fewer, live - {h}) && forall k :: k in live - {h} ==> fewer[k].ptr == chunks[k].ptr
    requires HomeStart(regions, chunks[h].ptr) < chunks[h].ptr
    ensures TableOk(fewer, live - {h}, SetHandle(regions, chunks[h].ptr, NONE))
  {
    hide RegionsOk, Covered, HomeStart, HomeEnd, Lookup, Floor, SetHandle, Aligned;
    var q := chunks[h].ptr;
    var regions' := SetHandle(regions, q, NONE);
    assert Placed(regions, chunks[h]);
    FloorOfStart(regions, q);
    forall k | k in live - {h}
      ensures Lookup(regions', fewer[k].ptr) == k
    {
      SetLookup(regions, q, NONE, chunks[k].ptr);
      assert Placed(regions, chunks[k]);
      FloorOfStart(regions, chunks[k].ptr);
      StartsDiffer(chunks[k], chunks[h]);
    }
    forall p: nat
      ensures EntryOk(fewer, live - {h}, regions', p)
    {
      SetLookup(regions, q, NONE, p);
      SameBounds(regions, q, NONE, p);
      assert EntryOk(chunks, live, regions, p);
    }
    forall p: nat | Covered(regions', p)
      ensures Lookup(regions', HomeStart(regions', p)) != NONE
    {
      SameBounds(regions, q, NONE, p);
      SetLookup(regions, q, NONE, HomeStart(regions, p));
      HomeOfHome(regions, p);
      CoveredBy(regions, p);
    }
  }

  // ----- what keeps the tiling

  lemma SplitTiled(parts: seq<Chunk>, whole: seq<Chunk>, live: set<Handle>, regions: seq<Region>, h1: Handle,
                   h2: Handle)
    requires Tiled(whole, live, regions) && Joined(parts, whole, live, h1, h2)
    ensures Tiled(parts, live + {h2}, SetHandle(regions, parts[h2].ptr, h2))
  {
    hide Joined, Placed, Apart, NextOk, PrevOk, EntriesOk, FirstOk, SetHandle, SameSpan, OtherPrev;
    JoinedTwo(parts, whole, live, h1, h2);
    var regions' := SetHandle(regions, parts[h2].ptr, h2);
    forall k | k in live + {h2}
      ensures NextOk(parts, live + {h2}, k) && PrevOk(parts, live + {h2}, k) && Placed(regions, parts[k])
    {
      SplitLink(parts, whole, live, h1, h2, k);
      SplitPlaced(parts, whole, live, regions, h1, h2, k);
    }
    forall j, k | j in live + {h2} && k in live + {h2} && j != k
      ensures Apart(parts[j], parts[k])
    {
      SplitApart(parts, whole, live, h1, h2, j, k);
    }
    forall k | k in live
      ensures parts[k].ptr == whole[k].ptr
    {
      if k != h1 { JoinedPtr(parts, whole, live, h1, h2, k); }
    }
    TableSet(whole, live, regions, parts, h2);
    PlacesSame(parts, live + {h2}, regions, parts[h2].ptr, h2);
  }

  lemma JoinedPtr(parts: seq<Chunk>, whole: seq<Chunk>, live: set<Handle>, h1: Handle, h2: Handle, k: Handle)
    requires Joined(parts, whole, live, h1, h2) && k in live
    ensures parts[k].ptr == whole[k].ptr
  {
    if k != h1 { JoinedOther(parts, whole, live, h1, h2, k); }
  }

  lemma PlacesSame(chunks: seq<Chunk>, live: set<Handle>, regions: seq<Region>, p: nat, h: Handle)
    requires RegionsOk(regions) && HandlesOk(chunks, live) && PlacesOk(chunks, live, regions)
    ensures RegionsOk(SetHandle(regions, p, h)) && PlacesOk(chunks, live, SetHandle(regions, p, h))
  {
    hide RegionsOk, Covered, HomeStart, HomeEnd, SetHandle, Aligned;
    SameBounds(regions, p, h, 0);
    forall k | k in live
      ensures Placed(SetHandle(regions, p, h), chunks[k])
    {
      SameBounds(regions, p, h, chunks[k].ptr);
      assert Placed(regions, chunks[k]);
    }
  }

  lemma MergeTiled(parts: seq<Chunk>, whole: seq<Chunk>, live: set<Handle>, regions: seq<Region>, h1: Handle,
                   h2: Handle)
    requires Tiled(parts, live + {h2}, regions) && Joined(parts, whole, live, h1, h2)
    ensures Tiled(whole, live, SetHandle(regions, parts[h2].ptr, NONE))
  {
    hide Joined, Placed, Apart, NextOk, PrevOk, EntriesOk, FirstOk, SetHandle, SameSpan, OtherPrev;
    JoinedTwo(parts, whole, live, h1, h2);
    forall k | k in live
      ensures NextOk(whole, live, k) && PrevOk(whole, live, k) && Placed(regions, whole[k]) && parts[k].size > 0
    {
      MergeLink(parts, whole, live, h1, h2, k);
      MergePlaced(parts, whole, live, regions, h1, h2, k);
      PlacedSize(regions, parts[k]);
    }
    forall j, k | j in live && k in live && j != k
      ensures Apart(whole[j], whole[k])
    {
      MergeApart(parts, whole, live, h1, h2, j, k);
    }
    forall k | k in live
      ensures parts[k].ptr == whole[k].ptr
    {
      JoinedPtr(parts, whole, live, h1, h2, k);
    }
    assert live + {h2} - {h2} == live;
    SecondIsNotFirst(parts, whole, live, regions, h1, h2);
    TableErase(parts, live + {h2}, regions, whole, h2);
    PlacesSame(whole, live, regions, parts[h2].ptr, NONE);
  }

  lemma PlacedSize(regions: seq<Region>, c: Chunk)
    requires Placed(regions, c)
    ensures c.size > 0 && c.size % GRAIN == 0
  {
  }

  lemma SecondIsNotFirst(parts: seq<Chunk>, whole: seq<Chunk>, live: set<Handle>, regions: seq<Region>, h1: Handle,
                         h2: Handle)
    requires RegionsOk(regions) && NONE !in live && Joined(parts, whole, live, h1, h2)
             && PlacesOk(parts, live + {h2}, regions)
    ensures HomeStart(regions, parts[h2].ptr) < parts[h2].ptr
  {
    hide Joined, RegionsOk, Covered, HomeStart, HomeEnd;
    JoinedTwo(parts, whole, live, h1, h2);
    assert Placed(regions, parts[h1]);
    JoinedHome(parts, whole, live, regions, h1, h2);
  }

  /** One chunk for a whole new region. */
  lemma ExtendTiled(chunks: seq<Chunk>, live: set<Handle>, regions: seq<Region>, more: seq<Chunk>, h: Handle)
    requires Tiled(chunks, live, regions) && HandlesOk(more, live + {h}) && h !in live && h != NONE
    requires forall k :: k in live ==> more[k] == chunks[k]
    requires more[h].prev == NONE == more[h].next && more[h].ptr > 0 && more[h].size > 0 && more[h].size % GRAIN == 0
    requires ApartFrom(regions, more[h].ptr, more[h].size)
    ensures Tiled(more, live + {h}, SetHandle(AddRegion(regions, more[h].ptr, more[h].size), more[h].ptr, h))
  {
    hide RegionsOk, Covered, HomeStart, HomeEnd, Lookup, Floor, SetHandle, AddRegion, Aligned, EntriesOk, FirstOk,
      ApartFrom;
    var p, size := more[h].ptr, more[h].size;
    var regions' := AddRegion(regions, p, size);
    AddRegionOk(regions, p, size);
    forall k | k in live
      ensures Placed(regions', more[k]) && Apart(more[k], more[h]) && NextOk(more, live + {h}, k)
              && PrevOk(more, live + {h}, k)
    {
      assert Placed(regions, chunks[k]);
      ExtendPlaced(regions, chunks[k], p, size);
      assert NextOk(chunks, live, k) && PrevOk(chunks, live, k);
    }
    assert Placed(regions', more[h]) by {
      AddLookup(regions, p, size, p);
      FirstIsAligned(p);
    }
    ExtendTable(chunks, live, regions, more, p, size);
    TableSet(more, live, regions', more, h);
    PlacesSame(more, live + {h}, regions', p, h);
  }

  lemma FirstIsAligned(p: nat)
    ensures Aligned(p, p)
  {
  }

  lemma ExtendPlaced(regions: seq<Region>, c: Chunk, p: nat, size: nat)
    requires RegionsOk(regions) && p > 0 && size > 0 && size % GRAIN == 0 && ApartFrom(regions, p, size)
             && Placed(regions, c)
    ensures Placed(AddRegion(regions, p, size), c) && (End(c) <= p || p + size <= c.ptr)
  {
    hide RegionsOk, RegionFor, AddRegion, Aligned;
    AddLookup(regions, p, size, c.ptr);
    CoveredBy(regions, c.ptr);
  }

  lemma ExtendTable(chunks: seq<Chunk>, live: set<Handle>, regions: seq<Region>, more: seq<Chunk>, p: nat, size: nat)
    requires RegionsOk(regions) && p > 0 && size > 0 && size % GRAIN == 0 && ApartFrom(regions, p, size)
    requires HandlesOk(chunks, live) && HandlesOk(more, live) && (forall k :: k in live ==> more[k] == chunks[k])
    requires PlacesOk(chunks, live, regions) && TableOk(chunks, live, regions)
    ensures EntriesOk(more, live, AddRegion(regions, p, size)) && FirstOk(AddRegion(regions, p, size), p)
  {
    hide RegionsOk, Covered, HomeStart, HomeEnd, Lookup, Floor, AddRegion, Aligned, ApartFrom;
    var regions' := AddRegion(regions, p, size);
    forall k | k in live
      ensures Lookup(regions', more[k].ptr) == k
    {
      assert Placed(regions, chunks[k]);
      AddLookup(regions, p, size, chunks[k].ptr);
    }
    forall q: nat
      ensures EntryOk(more, live, regions', q)
    {
      AddLookup(regions, p, size, q);
      assert EntryOk(chunks, live, regions, q);
    }
    forall q: nat | Covered(regions', q)
      ensures Lookup(regions', HomeStart(regions', q)) != NONE || HomeStart(regions', q) == p
    {
      AddLookup(regions, p, size, q);
      if !(p <= q < p + size) {
        HomeOfHome(regions, q);
        CoveredBy(regions, q);
        AddLookup(regions, p, size, HomeStart(regions, q));
        LookupFloor(regions, HomeStart(regions, q));
      }
    }
  }
}
