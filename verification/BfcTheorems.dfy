/** What the arena's invariant means for whole regions and for the callers' memory. */
module BfcTheorems {
  import opened BfcRegions
  import opened BfcChunks
  import opened BfcBins
  import opened BfcState
  import opened BfcSizes
  import opened BfcPolicy
  import opened BfcArena

  // ----- each region is one chain of chunks

  lemma NextHome(chunks: seq<Chunk>, live: set<Handle>, regions: seq<Region>, h: Handle)
    requires Tiled(chunks, live, regions) && h in live && 0 <= h < |chunks|
    ensures Covered(regions, chunks[h].ptr)
            && HomeStart(regions, chunks[h].ptr) <= chunks[h].ptr < HomeEnd(regions, chunks[h].ptr)
    ensures End(chunks[h]) <= HomeEnd(regions, chunks[h].ptr) && chunks[h].size > 0
    ensures chunks[h].next == NONE ==> End(chunks[h]) == HomeEnd(regions, chunks[h].ptr)
    ensures chunks[h].next != NONE ==>
              && chunks[h].next in live && 0 <= chunks[h].next < |chunks|
              && chunks[chunks[h].next].ptr == End(chunks[h])
              && HomeStart(regions, End(chunks[h])) == HomeStart(regions, chunks[h].ptr)
              && HomeEnd(regions, End(chunks[h])) == HomeEnd(regions, chunks[h].ptr)
  {
    hide Tiled, RegionsOk, Covered, HomeStart, HomeEnd;
    TiledHandles(chunks, live, regions);
    ChunkFacts(chunks, live, regions, h);
    CoveredBy(regions, chunks[h].ptr);
    if chunks[h].next != NONE { SameHome(regions, chunks[h].ptr, End(chunks[h])); }
  }

  /** The chunks reached from h by next links. */
  ghost function Chain(chunks: seq<Chunk>, live: set<Handle>, regions: seq<Region>, h: Handle): (c: seq<Handle>)
    requires Tiled(chunks, live, regions) && h in live && 0 <= h < |chunks|
    ensures |c| > 0 && c[0] == h
    decreases HomeEnd(regions, chunks[h].ptr) - chunks[h].ptr
  {
    NextHome(chunks, live, regions, h);
    if chunks[h].next == NONE then [h] else [h] + Chain(chunks, live, regions, chunks[h].next)
  }

  ghost function ChainBytes(chunks: seq<Chunk>, c: seq<Handle>): nat
    requires forall i :: 0 <= i < |c| ==> 0 <= c[i] < |chunks|
  {
    if c == [] then 0 else chunks[c[0]].size + ChainBytes(chunks, c[1..])
  }

  /** Consecutive chunks touch, and the last one ends the region. */
  ghost predicate Contiguous(chunks: seq<Chunk>, live: set<Handle>, c: seq<Handle>, end: nat) {
    && (forall i :: 0 <= i < |c| ==> c[i] in live && 0 <= c[i] < |chunks|)
    && (forall i :: 0 <= i < |c| - 1 ==> End(chunks[c[i]]) == chunks[c[i + 1]].ptr)
    && (|c| > 0 ==> End(chunks[c[|c| - 1]]) == end)
  }

  lemma {:induction false} ChainIsContiguous(chunks: seq<Chunk>, live: set<Handle>, regions: seq<Region>, h: Handle)
    requires Tiled(chunks, live, regions) && h in live && 0 <= h < |chunks|
    ensures var c, end := Chain(chunks, live, regions, h), HomeEnd(regions, chunks[h].ptr);
            Contiguous(chunks, live, c, end) && chunks[h].ptr + ChainBytes(chunks, c) == end
    decreases HomeEnd(regions, chunks[h].ptr) - chunks[h].ptr
  {
    hide Tiled, HomeEnd, HomeStart, Chain, Contiguous, ChainBytes;
    NextHome(chunks, live, regions, h);
    ChainStep(chunks, live, regions, h);
    if chunks[h].next == NONE {
      ContiguousOne(chunks, live, h);
    } else {
      var rest := Chain(chunks, live, regions, chunks[h].next);
      ChainIsContiguous(chunks, live, regions, chunks[h].next);
      ContiguousCons(chunks, live, h, rest, HomeEnd(regions, chunks[h].ptr));
    }
  }

  lemma ChainStep(chunks: seq<Chunk>, live: set<Handle>, regions: seq<Region>, h: Handle)
    requires Tiled(chunks, live, regions) && h in live && 0 <= h < |chunks|
    requires chunks[h].next != NONE ==> chunks[h].next in live && 0 <= chunks[h].next < |chunks|
    ensures Chain(chunks, live, regions, h) ==
            if chunks[h].next == NONE then [h] else [h] + Chain(chunks, live, regions, chunks[h].next)
  {
    hide Tiled, HomeEnd;
  }

  lemma ContiguousOne(chunks: seq<Chunk>, live: set<Handle>, h: Handle)
    requires h in live && 0 <= h < |chunks|
    ensures Contiguous(chunks, live, [h], End(chunks[h])) && ChainBytes(chunks, [h]) == chunks[h].size
  {
    assert [h][1..] == [];
  }

  lemma ContiguousCons(chunks: seq<Chunk>, live: set<Handle>, h: Handle, rest: seq<Handle>, end: nat)
    requires h in live && 0 <= h < |chunks| && rest != [] && Contiguous(chunks, live, rest, end)
             && End(chunks[h]) == chunks[rest[0]].ptr
    ensures Contiguous(chunks, live, [h] + rest, end)
            && ChainBytes(chunks, [h] + rest) == chunks[h].size + ChainBytes(chunks, rest)
  {
    assert ([h] + rest)[1..] == rest;
  }

  /** A live chunk of the same region that does not come before h is in the chain. */
  lemma {:induction false} ChainIsComplete(chunks: seq<Chunk>, live: set<Handle>, regions: seq<Region>, h: Handle,
                                           k: Handle)
    requires Tiled(chunks, live, regions) && h in live && 0 <= h < |chunks| && k in live && 0 <= k < |chunks|
    requires HomeEnd(regions, chunks[k].ptr) == HomeEnd(regions, chunks[h].ptr) && chunks[h].ptr <= chunks[k].ptr
    ensures k in Chain(chunks, live, regions, h)
    decreases HomeEnd(regions, chunks[h].ptr) - chunks[h].ptr
  {
    hide Tiled, HomeEnd, HomeStart;
    NextHome(chunks, live, regions, h);
    NextHome(chunks, live, regions, k);
    if k != h {
      LiveApart(chunks, live, regions, h, k);
      ChainIsComplete(chunks, live, regions, chunks[h].next, k);
    }
  }

  lemma LiveApart(chunks: seq<Chunk>, live: set<Handle>, regions: seq<Region>, h: Handle, k: Handle)
    requires Tiled(chunks, live, regions) && h in live && k in live && h != k
    ensures 0 <= h < |chunks| && 0 <= k < |chunks| && Apart(chunks[h], chunks[k])
  {
    hide TableOk, PlacesOk, LinksOk, Apart;
  }

  /** The chunk at the start of a region. */
  lemma FirstChunk(s: Heap, live: set<Handle>, recycled: seq<Handle>, r: nat)
    requires Coherent(s, live, recycled, {}, NONE) && r < |s.regions|
    ensures var h := Lookup(s.regions, s.regions[r].ptr);
            && h in live && 0 <= h < |s.chunks| && s.chunks[h].ptr == s.regions[r].ptr
            && HomeStart(s.regions, s.regions[r].ptr) == s.regions[r].ptr
            && HomeEnd(s.regions, s.regions[r].ptr) == EndOf(s.regions[r])
  {
    hide Coherent, Lookup, Floor, Covered, HomeStart, HomeEnd;
    var p := s.regions[r].ptr;
    CoherentParts(s, live, recycled, {}, NONE);
    assert RegionOk(s.regions[r]);
    RegionForIs(s.regions, p, r);
    CoveredBy(s.regions, p);
    HomeOfHome(s.regions, p);
    LookupFinds(s, live, recycled, p);
  }

  /**
   Every region is tiled exactly: the chain from its first chunk covers it without gap or overlap and
   holds exactly the live chunks inside it.
   */
  lemma RegionIsTiled(s: Heap, live: set<Handle>, recycled: seq<Handle>, r: nat)
    requires Coherent(s, live, recycled, {}, NONE) && r < |s.regions|
    ensures Tiled(s.chunks, live, s.regions)
    ensures var first := Lookup(s.regions, s.regions[r].ptr);
            && first in live && 0 <= first < |s.chunks| && s.chunks[first].ptr == s.regions[r].ptr
            && var c := Chain(s.chunks, live, s.regions, first);
            && Contiguous(s.chunks, live, c, EndOf(s.regions[r])) && ChainBytes(s.chunks, c) == s.regions[r].size
            && (forall k :: k in live && 0 <= k < |s.chunks| && Within(s.regions[r], s.chunks[k].ptr) ==> k in c)
  {
    hide Coherent, Tiled, Lookup, HomeStart, HomeEnd, Chain, Contiguous;
    CoherentParts(s, live, recycled, {}, NONE);
    TiledHandles(s.chunks, live, s.regions);
    FirstChunk(s, live, recycled, r);
    var first := Lookup(s.regions, s.regions[r].ptr);
    ChainIsContiguous(s.chunks, live, s.regions, first);
    forall k | k in live && 0 <= k < |s.chunks| && Within(s.regions[r], s.chunks[k].ptr)
      ensures k in Chain(s.chunks, live, s.regions, first)
    {
      RegionForIs(s.regions, s.chunks[k].ptr, r);
      ChainIsComplete(s.chunks, live, s.regions, first, k);
    }
  }

  lemma {:induction false} ChainStaysHome(chunks: seq<Chunk>, live: set<Handle>, regions: seq<Region>, h: Handle,
                                          k: Handle)
    requires Tiled(chunks, live, regions) && h in live && 0 <= h < |chunks| && k in Chain(chunks, live, regions, h)
    ensures k in live && 0 <= k < |chunks| && Covered(regions, chunks[k].ptr)
    ensures HomeStart(regions, chunks[k].ptr) == HomeStart(regions, chunks[h].ptr)
    decreases HomeEnd(regions, chunks[h].ptr) - chunks[h].ptr
  {
    hide Tiled, HomeEnd, HomeStart, Covered;
    NextHome(chunks, live, regions, h);
    if k != h { ChainStaysHome(chunks, live, regions, chunks[h].next, k); }
  }

  /** The chain of region r. */
  ghost function RegionChain(s: Heap, live: set<Handle>, recycled: seq<Handle>, r: nat): seq<Handle>
    requires Coherent(s, live, recycled, {}, NONE) && r < |s.regions|
  {
    RegionIsTiled(s, live, recycled, r);
    Chain(s.chunks, live, s.regions, Lookup(s.regions, s.regions[r].ptr))
  }

  lemma RegionChainHolds(s: Heap, live: set<Handle>, recycled: seq<Handle>, r: nat, h: Handle)
    requires Coherent(s, live, recycled, {}, NONE) && r < |s.regions|
    ensures h in RegionChain(s, live, recycled, r) <==>
            h in live && 0 <= h < |s.chunks| && Within(s.regions[r], s.chunks[h].ptr)
  {
    hide Coherent, Tiled, Chain, Contiguous, ChainBytes, Lookup, HomeStart, HomeEnd, Covered;
    CoherentParts(s, live, recycled, {}, NONE);
    TiledHandles(s.chunks, live, s.regions);
    RegionIsTiled(s, live, recycled, r);
    FirstChunk(s, live, recycled, r);
    if h in RegionChain(s, live, recycled, r) {
      ChainStaysHome(s.chunks, live, s.regions, Lookup(s.regions, s.regions[r].ptr), h);
      HomeIsRegion(s.regions, s.chunks[h].ptr, r);
    }
  }

  lemma HomeIsRegion(regions: seq<Region>, p: nat, r: nat)
    requires RegionsOk(regions) && Covered(regions, p) && r < |regions| && HomeStart(regions, p) == regions[r].ptr
    ensures Within(regions[r], p)
  {
    CoveredBy(regions, p);
    var i := RegionFor(regions, p);
    assert RegionOk(regions[i]) && RegionOk(regions[r]);
    hide RegionFor;
    assert i == r;
  }

  /** Every handle is either recycled or in the chain of exactly one region. */
  lemma EveryHandleOnce(s: Heap, live: set<Handle>, recycled: seq<Handle>, h: Handle)
    requires Coherent(s, live, recycled, {}, NONE) && 0 <= h < |s.chunks|
    ensures h in recycled <==> forall r: nat :: r < |s.regions| ==> h !in RegionChain(s, live, recycled, r)
    ensures forall q: nat, r: nat :: q < r < |s.regions| ==>
              !(h in RegionChain(s, live, recycled, q) && h in RegionChain(s, live, recycled, r))
  {
    hide Coherent, Tiled, RegionChain, Covered;
    CoherentParts(s, live, recycled, {}, NONE);
    hide Pool;
    PoolMembers(s.chunks, live, s.freeList, recycled);
    TiledHandles(s.chunks, live, s.regions);
    forall r: nat | r < |s.regions|
      ensures h in RegionChain(s, live, recycled, r) <==> h in live && Within(s.regions[r], s.chunks[h].ptr)
    {
      RegionChainHolds(s, live, recycled, r, h);
    }
    if h in live {
      ChunkFacts(s.chunks, live, s.regions, h);
      CoveredBy(s.regions, s.chunks[h].ptr);
      assert h in RegionChain(s, live, recycled, RegionFor(s.regions, s.chunks[h].ptr));
    }
  }

  /** Once nothing is granted, every region is again one free chunk, in the bin of its size. */
  lemma AllFreedIsWhole(s: Heap, live: set<Handle>, recycled: seq<Handle>, r: nat)
    requires Coherent(s, live, recycled, {}, NONE) && r < |s.regions| && forall h :: !Granted(s.chunks, live, h)
    ensures var h := Lookup(s.regions, s.regions[r].ptr);
            && h in live && 0 <= h < |s.chunks| && s.chunks[h].ptr == s.regions[r].ptr
            && s.chunks[h].size == s.regions[r].size
            && BinNumForSize(s.chunks[h].size) < |s.bins| && h in s.bins[BinNumForSize(s.chunks[h].size)]
  {
    hide Coherent, Tiled, Lookup, HomeStart, HomeEnd, BinNumForSize;
    CoherentParts(s, live, recycled, {}, NONE);
    FirstChunk(s, live, recycled, r);
    var h := Lookup(s.regions, s.regions[r].ptr);
    assert !Granted(s.chunks, live, h);
    NextHome(s.chunks, live, s.regions, h);
    assert !Granted(s.chunks, live, s.chunks[h].next);
    FreeIsBinned(s, live, recycled, h);
  }

  // ----- memory held by callers

  /** Memory in the hands of a caller: a granted chunk or a reservation. */
  datatype Holding = GrantedChunk(handle: Handle) | Reservation(ptr: nat)

  ghost predicate Held(s: Heap, live: set<Handle>, reserved: map<nat, nat>, m: Holding) {
    match m
    case GrantedChunk(h) => Granted(s.chunks, live, h)
    case Reservation(p) => p > 0 && p in reserved
  }

  ghost function First(s: Heap, live: set<Handle>, reserved: map<nat, nat>, m: Holding): nat
    requires Held(s, live, reserved, m)
  {
    match m
    case GrantedChunk(h) => s.chunks[h].ptr
    case Reservation(p) => p
  }

  /** The first byte after a holding. */
  ghost function Past(s: Heap, live: set<Handle>, reserved: map<nat, nat>, m: Holding): nat
    requires Held(s, live, reserved, m)
  {
    match m
    case GrantedChunk(h) => End(s.chunks[h])
    case Reservation(p) => p + reserved[p]
  }

  /** No two callers ever hold the same byte. */
  lemma HoldingsApart(s: Heap, live: set<Handle>, recycled: seq<Handle>, b: Books, m: Holding, n: Holding)
    requires ArenaOk(s, live, recycled, b) && Held(s, live, b.reserved, m) && Held(s, live, b.reserved, n) && m != n
    ensures || Past(s, live, b.reserved, m) <= First(s, live, b.reserved, n)
            || Past(s, live, b.reserved, n) <= First(s, live, b.reserved, m)
  {
    hide Coherent, BooksOk, Tiled, GrantsOk, ApartFrom, BinsOk, NoTwins, Pool, HandlesOk, BytesInUse, Total;
    CoherentParts(s, live, recycled, {}, NONE);
    BooksFacts(s, live, b);
    match (m, n)
    case (GrantedChunk(h), GrantedChunk(k)) => LiveApart(s.chunks, live, s.regions, h, k);
    case (GrantedChunk(h), Reservation(p)) => ChunkApartFromReserved(s, live, h, p, b.reserved[p]);
    case (Reservation(p), GrantedChunk(k)) => ChunkApartFromReserved(s, live, k, p, b.reserved[p]);
    case (Reservation(_), Reservation(_)) =>
  }

  lemma ChunkApartFromReserved(s: Heap, live: set<Handle>, h: Handle, p: nat, size: nat)
    requires Tiled(s.chunks, live, s.regions) && h in live && 0 <= h < |s.chunks| && ApartFrom(s.regions, p, size)
    ensures p + size <= s.chunks[h].ptr || End(s.chunks[h]) <= p
  {
    hide Tiled, RegionsOk;
    NextHome(s.chunks, live, s.regions, h);
    TiledHandles(s.chunks, live, s.regions);
    CoveredBy(s.regions, s.chunks[h].ptr);
  }

  // ----- alloc and free

  /** Freeing what was just allocated gives every caller back exactly what it held, and the counters too. */
  method AllocThenFree(arena: BFCArena, size: nat, device: Device) returns (p: nat)
    requires arena.Valid() && size <= WORD - GRAIN && HandsOutFresh(device, arena.regions, arena.reserved)
    requires size == 0 || SomeFit(arena.chunks, arena.live, RoundedBytes(size))
             || ExtendReturns(device, arena.memoryLimit, arena.totalAllocated, arena.currRegionBytes, arena.backpedaled,
                              RoundedBytes(size))
    modifies arena
    ensures arena.Valid() && arena.bytesInUse == old(arena.bytesInUse) && arena.reserved == old(arena.reserved)
    ensures KeepsGrants(old(arena.chunks), old(arena.live), arena.chunks, arena.live, {})
  {
    hide ArenaOk, KeepsGrants, HandsOutFresh, RoundedBytes, Granted, BestFit, SomeFit, Available, GrantOk, Lookup,
      Floor,
      ExtendReturns, NoRoom;
    ghost var chunks0, live0 := arena.chunks, arena.live;
    ghost var h;
    p, h := arena.Alloc(size, device);
    if p != 0 {
      ghost var chunks1, live1, regions1 := arena.chunks, arena.live, arena.regions;
      GrantIsFound(Heap(arena.chunks, arena.freeList, arena.bins, arena.regions), arena.live, arena.recycled,
                   Books(arena.reserved, arena.nextId, arena.bytesInUse, arena.totalAllocated, arena.maxBytesInUse,
                         arena.memoryLimit, arena.currRegionBytes), h);
      var ok := arena.Free(p);
      UndoGrant(chunks0, live0, chunks1, live1, arena.chunks, arena.live, h);
    }
  }

  lemma GrantIsFound(s: Heap, live: set<Handle>, recycled: seq<Handle>, b: Books, h: Handle)
    requires ArenaOk(s, live, recycled, b) && Granted(s.chunks, live, h)
    ensures 0 <= h < |s.chunks| && Lookup(s.regions, s.chunks[h].ptr) == h && s.chunks[h].ptr !in b.reserved
  {
    hide Coherent, BooksOk, Tiled, GrantsOk, ApartFrom, BinsOk, NoTwins, Pool, Lookup, Floor, HandlesOk, BytesInUse,
      Total;
    CoherentParts(s, live, recycled, {}, NONE);
    BooksFacts(s, live, b);
    ChunkFacts(s.chunks, live, s.regions, h);
    TiledHandles(s.chunks, live, s.regions);
    FloorOfStart(s.regions, s.chunks[h].ptr);
    LookupFinds(s, live, recycled, s.chunks[h].ptr);
    PtrNotNull(s, live, recycled, {}, NONE, h);
    if s.chunks[h].ptr in b.reserved {
      ChunkApartFromReserved(s, live, h, s.chunks[h].ptr, b.reserved[s.chunks[h].ptr]);
      assert false;
    }
  }

  lemma UndoGrant(a: seq<Chunk>, la: set<Handle>, b: seq<Chunk>, lb: set<Handle>, c: seq<Chunk>, lc: set<Handle>,
                  h: Handle)
    requires KeepsGrants(a, la, b, lb, {h}) && KeepsGrants(b, lb, c, lc, {h}) && !Granted(a, la, h)
             && !Granted(c, lc, h)
    ensures KeepsGrants(a, la, c, lc, {})
  {
    forall k | k !in {}
      ensures KeepsGrant(a, la, c, lc, k)
    {
      if k != h { assert KeepsGrant(a, la, b, lb, k) && KeepsGrant(b, lb, c, lc, k); }
    }
  }
}
