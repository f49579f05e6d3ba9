/** What the arena promises its callers: best fit, little waste, fresh memory. */
module BfcPolicy {
  import opened BfcRegions
  import opened BfcChunks
  import opened BfcBins
  import opened BfcState
  import opened BfcSizes

  /** The device's answer to the k-th request of an operation, for so many bytes; zero is a refusal. */
  type Device = (nat, nat) -> nat

  ghost predicate ApartFromReserved(reserved: map<nat, nat>, ptr: nat, size: nat) {
    forall p :: p in reserved && p > 0 ==> p + reserved[p] <= ptr || ptr + size <= p
  }

  /** The device hands out only memory that the arena does not hold. */
  ghost predicate HandsOutFresh(device: Device, regions: seq<Region>, reserved: map<nat, nat>) {
    forall k, b :: b > 0 && device(k, b) != 0 ==>
      ApartFrom(regions, device(k, b), b) && ApartFromReserved(reserved, device(k, b), b)
  }

  /** Reservations lie outside the regions and apart from each other. */
  ghost predicate ReservedOk(regions: seq<Region>, reserved: map<nat, nat>) {
    && (forall p :: p in reserved ==> reserved[p] > 0)
    && (forall p :: p in reserved && p > 0 ==> ApartFrom(regions, p, reserved[p]))
    && (forall p, q :: p in reserved && q in reserved && 0 < p < q ==> p + reserved[p] <= q)
  }

  // ----- grants

  function Min(a: nat, b: nat): nat { if a < b then a else b }
  function Max(a: nat, b: nat): nat { if a > b then a else b }

  /** Enough, and less than twice what was asked for or 128 MB too much. */
  ghost predicate GrantOk(c: Chunk) {
    var rounded := RoundedBytes(c.requested);
    c.requested > 0 && rounded <= c.size && c.size - rounded < Min(rounded, MAX_INTERNAL_FRAGMENTATION)
  }

  ghost predicate GrantsOk(chunks: seq<Chunk>, live: set<Handle>, nextId: int) {
    && (forall h :: Granted(chunks, live, h) ==> GrantOk(chunks[h]) && 0 < chunks[h].id < nextId)
    && (forall h, k :: Granted(chunks, live, h) && Granted(chunks, live, k) && h != k ==> chunks[h].id != chunks[k].id)
  }

  lemma GrantsFrame(a: seq<Chunk>, la: set<Handle>, b: seq<Chunk>, lb: set<Handle>, nextId: int)
    requires GrantsOk(a, la, nextId) && KeepsGrants(a, la, b, lb, {})
    ensures GrantsOk(b, lb, nextId)
  {
    hide RoundedBytes;
    forall h | Granted(b, lb, h)
      ensures GrantOk(b[h]) && 0 < b[h].id < nextId && Granted(a, la, h) && SameGrant(a[h], b[h])
    {
      assert KeepsGrant(a, la, b, lb, h);
    }
  }

  lemma GrantsAdd(a: seq<Chunk>, la: set<Handle>, b: seq<Chunk>, lb: set<Handle>, nextId: int, h: Handle)
    requires GrantsOk(a, la, nextId) && KeepsGrants(a, la, b, lb, {h}) && nextId > 0
    requires Granted(b, lb, h) && GrantOk(b[h]) && b[h].id == nextId
    ensures GrantsOk(b, lb, nextId + 1)
  {
    hide GrantOk;
    forall k | Granted(b, lb, k) && k != h
      ensures GrantOk(b[k]) && 0 < b[k].id < nextId && Granted(a, la, k) && SameGrant(a[k], b[k])
    {
      assert KeepsGrant(a, la, b, lb, k);
      GrantFrame(a[k], b[k]);
    }
  }

  lemma GrantsDrop(a: seq<Chunk>, la: set<Handle>, b: seq<Chunk>, lb: set<Handle>, nextId: int, h: Handle)
    requires GrantsOk(a, la, nextId) && KeepsGrants(a, la, b, lb, {h}) && !Granted(b, lb, h)
    ensures GrantsOk(b, lb, nextId)
  {
    hide GrantOk;
    forall k | Granted(b, lb, k)
      ensures GrantOk(b[k]) && 0 < b[k].id < nextId && Granted(a, la, k) && SameGrant(a[k], b[k])
    {
      assert k != h && KeepsGrant(a, la, b, lb, k);
      GrantFrame(a[k], b[k]);
    }
  }

  lemma GrantFrame(a: Chunk, b: Chunk)
    requires GrantOk(a) && SameGrant(a, b)
    ensures GrantOk(b)
  {
  }

  // ----- best fit

  /** The order of a bin: by size, then by address. */
  predicate Before(a: Chunk, b: Chunk) {
    a.size < b.size || (a.size == b.size && a.ptr <= b.ptr)
  }

  ghost predicate Fits(chunks: seq<Chunk>, live: set<Handle>, bytes: nat, h: Handle) {
    h in live && 0 <= h < |chunks| && !InUse(chunks[h]) && chunks[h].size >= bytes
  }

  ghost predicate SomeFit(chunks: seq<Chunk>, live: set<Handle>, bytes: nat) {
    exists h :: Fits(chunks, live, bytes, h)
  }

  /** The smallest free chunk that is large enough, the one at the lowest address among equals. */
  ghost predicate BestFit(chunks: seq<Chunk>, live: set<Handle>, bytes: nat, h: Handle) {
    Fits(chunks, live, bytes, h) && forall k :: Fits(chunks, live, bytes, k) ==> Before(chunks[h], chunks[k])
  }

  lemma {:induction false} FirstExists(chunks: seq<Chunk>, s: set<Handle>)
    requires s != {} && forall h :: h in s ==> 0 <= h < |chunks|
    ensures exists h :: h in s && forall k :: k in s ==> Before(chunks[h], chunks[k])
    decreases |s|
  {
    var a :| a in s;
    if s == {a} {
      assert forall k :: k in s ==> Before(chunks[a], chunks[k]);
    } else {
      var rest := s - {a};
      FirstExists(chunks, rest);
      var b :| b in rest && forall k :: k in rest ==> Before(chunks[b], chunks[k]);
      var h := if Before(chunks[a], chunks[b]) then a else b;
      assert h in s && forall k :: k in s ==> Before(chunks[h], chunks[k]);
    }
  }

  lemma BinMembers(s: Heap, live: set<Handle>, recycled: seq<Handle>, b: nat)
    requires Coherent(s, live, recycled, {}, NONE) && b < |s.bins|
    ensures forall h ::
              h in s.bins[b] ==> h in live && 0 <= h < |s.chunks| && !InUse(s.chunks[h]) && s.chunks[h].bin == b
  {
    TiledHandles(s.chunks, live, s.regions);
    hide Tiled, Pool, NoTwins;
    forall h | h in s.bins[b]
      ensures h in live && 0 <= h < |s.chunks| && !InUse(s.chunks[h]) && s.chunks[h].bin == b
    {
      assert h in live && Settled(s.chunks[h], s.bins, h);
    }
  }

  /** A free chunk is in the bin of its size. */
  lemma FreeIsBinned(s: Heap, live: set<Handle>, recycled: seq<Handle>, h: Handle)
    requires Coherent(s, live, recycled, {}, NONE) && h in live && 0 <= h < |s.chunks| && !InUse(s.chunks[h])
    ensures BinNumForSize(s.chunks[h].size) < |s.bins| && h in s.bins[BinNumForSize(s.chunks[h].size)]
    ensures s.chunks[h].bin == BinNumForSize(s.chunks[h].size)
  {
    TiledHandles(s.chunks, live, s.regions);
    hide Tiled, Pool, NoTwins, BinNumForSize;
    assert Settled(s.chunks[h], s.bins, h);
  }

  /** The first fit of the first bin that has one is the best fit of all. */
  lemma FirstFitIsBest(s: Heap, live: set<Handle>, recycled: seq<Handle>, bytes: nat, b: nat, h: Handle)
    requires Coherent(s, live, recycled, {}, NONE) && BinNumForSize(bytes) <= b < |s.bins| && h in s.bins[b]
    requires 0 <= h < |s.chunks| && s.chunks[h].size >= bytes
    requires forall c :: BinNumForSize(bytes) <= c < b ==> NoFit(s.chunks, s.bins[c], bytes)
    requires forall k ::
               k in s.bins[b] && 0 <= k < |s.chunks| && s.chunks[k].size >= bytes ==> Before(s.chunks[h], s.chunks[k])
    ensures BestFit(s.chunks, live, bytes, h)
  {
    hide Coherent, BinNumForSize;
    BinMembers(s, live, recycled, b);
    FreeIsBinned(s, live, recycled, h);
    forall k | Fits(s.chunks, live, bytes, k)
      ensures Before(s.chunks[h], s.chunks[k])
    {
      FreeIsBinned(s, live, recycled, k);
      BinMonotone(bytes, s.chunks[k].size);
      if s.chunks[k].size < s.chunks[h].size { BinMonotone(s.chunks[k].size, s.chunks[h].size); }
    }
  }

  ghost predicate NoFit(chunks: seq<Chunk>, bin: set<Handle>, bytes: nat) {
    forall h :: h in bin && 0 <= h < |chunks| ==> chunks[h].size < bytes
  }

  lemma NothingFits(s: Heap, live: set<Handle>, recycled: seq<Handle>, bytes: nat)
    requires Coherent(s, live, recycled, {}, NONE)
    requires forall c :: BinNumForSize(bytes) <= c < |s.bins| ==> NoFit(s.chunks, s.bins[c], bytes)
    ensures !SomeFit(s.chunks, live, bytes)
  {
    hide Coherent, BinNumForSize;
    forall h
      ensures !Fits(s.chunks, live, bytes, h)
    {
      if h in live && 0 <= h < |s.chunks| && !InUse(s.chunks[h]) {
        FreeIsBinned(s, live, recycled, h);
        if bytes <= s.chunks[h].size { BinMonotone(bytes, s.chunks[h].size); }
      }
    }
  }

  lemma ReservedFrame(a: seq<Region>, b: seq<Region>, reserved: map<nat, nat>)
    requires ReservedOk(a, reserved) && SameRanges(a, b)
    ensures ReservedOk(b, reserved)
  {
    forall p | p in reserved && p > 0
      ensures ApartFrom(b, p, reserved[p])
    {
      assert ApartFrom(a, p, reserved[p]);
    }
  }

  lemma ReservedAddRegion(regions: seq<Region>, reserved: map<nat, nat>, ptr: nat, size: nat)
    requires ReservedOk(regions, reserved) && ApartFromReserved(reserved, ptr, size)
    ensures ReservedOk(AddRegion(regions, ptr, size), reserved)
  {
    AddShape(regions, ptr, size);
    hide AddRegion;
    var i, regions' := RegionFor(regions, ptr), AddRegion(regions, ptr, size);
    forall p | p in reserved && p > 0
      ensures ApartFrom(regions', p, reserved[p])
    {
      assert ApartFrom(regions, p, reserved[p]);
    }
  }

  // ----- the whole state

  /** Everything the arena keeps, beyond its chunks. */
  datatype Books = Books(reserved: map<nat, nat>, nextId: int, bytesInUse: nat, totalAllocated: nat, maxBytesInUse: nat,
                         memoryLimit: nat, currRegionBytes: nat)

  /** The counters say what is in the books. */
  ghost predicate BooksOk(s: Heap, live: set<Handle>, b: Books) {
    && GrantsOk(s.chunks, live, b.nextId) && b.nextId > 0
    && b.bytesInUse == BytesInUse(s.chunks) + Total(b.reserved)
    && b.totalAllocated == RegionBytes(s.regions) + Total(b.reserved)
    && b.bytesInUse <= b.maxBytesInUse
    && ReservedOk(s.regions, b.reserved)
    && b.memoryLimit < WORD && b.currRegionBytes % GRAIN == 0 && (b.currRegionBytes == 0 ==> b.memoryLimit == 0)
  }

  ghost predicate ArenaOk(s: Heap, live: set<Handle>, recycled: seq<Handle>, b: Books) {
    Coherent(s, live, recycled, {}, NONE) && BooksOk(s, live, b)
  }

  // ----- when asking the device comes to an end

  ghost predicate GrantsAt(device: Device, bytes: nat, k: nat) {
    device(k, Asked(bytes, k)) != 0
  }

  /** Backing off from a refused request ends: too much is needed to go on forever, or a smaller request is granted. */
  ghost predicate WillReturn(device: Device, bytes: nat, rounded: nat) {
    rounded > BACKPEDAL_FLOOR || exists k: nat :: k > 0 && GrantsAt(device, bytes, k)
  }

  /** The k-th request is the last one of the backing-off loop. */
  ghost predicate EndsAt(device: Device, bytes: nat, rounded: nat, k: nat) {
    Asked(bytes, k) < rounded || GrantsAt(device, bytes, k)
  }

  /** The loop reaches one of its two exits exactly under this condition. */
  lemma EndsExactlyIf(device: Device, bytes: nat, rounded: nat)
    requires bytes % GRAIN == 0 && rounded % GRAIN == 0 && 0 < rounded <= bytes < WORD
    ensures (exists k: nat :: k > 0 && EndsAt(device, bytes, rounded, k)) <==> WillReturn(device, bytes, rounded)
  {
    hide Asked;
    GivesUpExactlyAboveFloor(bytes, rounded);
    AskedFirst(bytes);
    if k: nat :| k > 0 && EndsAt(device, bytes, rounded, k) {
      AskedBounds(bytes, k);
    }
    if n: nat :| Asked(bytes, n) < rounded {
      assert n > 0 && EndsAt(device, bytes, rounded, n);
    } else if WillReturn(device, bytes, rounded) {
      var k: nat :| k > 0 && GrantsAt(device, bytes, k);
      assert EndsAt(device, bytes, rounded, k);
    }
  }

  /** Every smaller request is refused until too little would be asked for. */
  ghost predicate GivesUp(device: Device, bytes: nat, rounded: nat) {
    exists k: nat :: k > 0 && Asked(bytes, k) < rounded && RefusedBefore(device, bytes, k)
  }

  lemma GrantedNotGivenUp(device: Device, bytes: nat, rounded: nat, k: nat)
    requires bytes % GRAIN == 0 && bytes < WORD && k > 0
    requires Asked(bytes, k) >= rounded && GrantsAt(device, bytes, k)
    ensures !GivesUp(device, bytes, rounded)
  {
    hide Asked;
    forall n: nat | n > 0 && Asked(bytes, n) < rounded
      ensures !RefusedBefore(device, bytes, n)
    {
      if n <= k { AskedShrinks(bytes, n, k); }
    }
  }

  /** Extending the arena comes to an end: refused at once, or both of its loops end. */
  ghost predicate ExtendReturns(device: Device, limit: nat, total: nat, curr: nat, backpedaled: bool, rounded: nat) {
    rounded > Available(limit, total)
    || (curr > 0
        && var bytes := Min(Doubled(curr, rounded), Available(limit, total));
        backpedaled || device(0, bytes) != 0 || WillReturn(device, bytes, rounded))
  }

  /** No free chunk is large enough, and neither the limit nor the device allows a new region. */
  ghost predicate NoRoom(device: Device, chunks: seq<Chunk>, live: set<Handle>, limit: nat, total: nat, curr: nat,
                         backpedaled: bool, rounded: nat) {
    && !SomeFit(chunks, live, rounded)
    && (rounded > Available(limit, total)
        || (curr > 0
            && var bytes := Min(Doubled(curr, rounded), Available(limit, total));
            device(0, bytes) == 0 && (backpedaled || GivesUp(device, bytes, rounded))))
  }

  ghost predicate GrantsAll(device: Device) {
    forall k, bytes :: device(k, bytes) != 0
  }

  /** Within the limit a device that grants everything leaves room; beyond it there is none without a free chunk. */
  lemma RoomExactlyIf(device: Device, chunks: seq<Chunk>, live: set<Handle>, limit: nat, total: nat, curr: nat,
                      backpedaled: bool, rounded: nat)
    requires limit < WORD && rounded % GRAIN == 0 && total <= limit
    ensures total + rounded <= limit && GrantsAll(device) ==>
              !NoRoom(device, chunks, live, limit, total, curr, backpedaled, rounded)
    ensures total + rounded > limit ==>
              (NoRoom(device, chunks, live, limit, total, curr, backpedaled, rounded) <==>
                 !SomeFit(chunks, live, rounded))
  {
    hide SomeFit, Available, GivesUp;
    AvailableExactly(limit, total, rounded);
  }

  /** Past the limit the arena behaves as if almost all of memory were left to it. */
  lemma RoomPastLimit(device: Device, chunks: seq<Chunk>, live: set<Handle>, limit: nat, total: nat, curr: nat,
                      backpedaled: bool, rounded: nat)
    requires limit < total < WORD && total + rounded + GRAIN <= limit + WORD && GrantsAll(device)
    ensures !NoRoom(device, chunks, live, limit, total, curr, backpedaled, rounded)
  {
    hide SomeFit, Available, GivesUp;
    AvailableIsTight(limit, total);
  }

  /** What is left of a chunk of this size once it has been granted for this many bytes. */
  ghost predicate CutOrWhole(before: nat, rounded: nat, after: nat) {
    if before >= 2 * rounded || before >= rounded + MAX_INTERNAL_FRAGMENTATION then after == rounded
    else after == before
  }

  /** The answer is the first grant among the ever smaller requests. */
  ghost predicate FirstGranted(device: Device, bytes: nat, mem: nat, got: nat) {
    exists n: nat ::
      n > 0 && got == Asked(bytes, n) && mem == device(n, got) && mem != 0 && RefusedBefore(device, bytes, n)
  }

  /** The chunks that were live before are as they were. */
  ghost predicate OthersSame(a: seq<Chunk>, la: set<Handle>, b: seq<Chunk>) {
    forall x :: x in la && 0 <= x < |a| ==> x < |b| && b[x] == a[x]
  }

  /** If nothing fitted before, what fits now is new. */
  lemma OnlyNewFits(a: seq<Chunk>, la: set<Handle>, b: seq<Chunk>, lb: set<Handle>, k: Handle, bytes: nat, h: Handle)
    requires HandlesOk(a, la) && OthersSame(a, la, b) && lb == la + {k} && !SomeFit(a, la, bytes)
    requires BestFit(b, lb, bytes, h)
    ensures h == k
  {
    if h in la {
      assert Fits(a, la, bytes, h);
      assert false;
    }
  }

  /** The device has granted so many bytes at this address. */
  ghost predicate DeviceGave(device: Device, bytes: nat, p: nat) {
    exists n: nat :: device(n, bytes) == p
  }

  lemma EmptyCoherent()
    ensures Coherent(Heap([], NONE, seq(NUM_BINS, _ => {}), []), {}, [], {}, NONE)
  {
    hide BinNumForSize;
    forall p: nat
      ensures EntryOk([], {}, [], p) && !Covered([], p)
    {
    }
  }

  lemma PtrNotNull(s: Heap, live: set<Handle>, recycled: seq<Handle>, loose: set<Handle>, x: Handle, h: Handle)
    requires Coherent(s, live, recycled, loose, x) && h in live && 0 <= h < |s.chunks|
    ensures s.chunks[h].ptr > 0
  {
    hide Coherent, Tiled, RegionsOk;
    CoherentParts(s, live, recycled, loose, x);
    TiledHandles(s.chunks, live, s.regions);
    ChunkFacts(s.chunks, live, s.regions, h);
    CoveredBy(s.regions, s.chunks[h].ptr);
  }

  lemma WasteOk(c: Chunk, rounded: nat)
    requires rounded == RoundedBytes(c.requested) && c.requested > 0 && rounded > 0 && c.size >= rounded
    requires c.size == rounded || !(c.size >= rounded * 2 || c.size - rounded >= MAX_INTERNAL_FRAGMENTATION)
    ensures GrantOk(c)
  {
  }

  lemma BinCount(s: Heap, live: set<Handle>, recycled: seq<Handle>)
    requires Coherent(s, live, recycled, {}, NONE)
    ensures |s.bins| == NUM_BINS
  {
  }

  lemma BestFits(chunks: seq<Chunk>, live: set<Handle>, bytes: nat, h: Handle)
    requires BestFit(chunks, live, bytes, h)
    ensures Fits(chunks, live, bytes, h)
  {
  }

  /** Chunk h is granted at address p for a request of so many bytes. */
  ghost predicate GrantedAs(chunks: seq<Chunk>, live: set<Handle>, h: Handle, p: nat, bytes: nat, id: int) {
    Granted(chunks, live, h) && chunks[h].ptr == p && chunks[h].requested == bytes && chunks[h].id == id
  }

  lemma GrantBooks(s: Heap, live: set<Handle>, b: Books, s': Heap, live': set<Handle>, h: Handle, bytesInUse: nat,
                   maxBytesInUse: nat)
    requires BooksOk(s, live, b) && KeepsGrants(s.chunks, live, s'.chunks, live', {h})
             && SameRanges(s.regions, s'.regions)
    requires Granted(s'.chunks, live', h) && GrantOk(s'.chunks[h]) && s'.chunks[h].id == b.nextId
    requires BytesInUse(s'.chunks) == BytesInUse(s.chunks) + s'.chunks[h].size
             && bytesInUse == b.bytesInUse + s'.chunks[h].size
    requires maxBytesInUse == Max(b.maxBytesInUse, bytesInUse)
    ensures BooksOk(s', live', b.(nextId := b.nextId + 1, bytesInUse := bytesInUse, maxBytesInUse := maxBytesInUse))
  {
    hide GrantsOk, KeepsGrants, GrantOk, BytesInUse, Total, RegionBytes, ReservedOk, SameRanges;
    GrantsAdd(s.chunks, live, s'.chunks, live', b.nextId, h);
    ReservedFrame(s.regions, s'.regions, b.reserved);
    RegionBytesSame(s.regions, s'.regions);
  }

  lemma BooksFacts(s: Heap, live: set<Handle>, b: Books)
    requires BooksOk(s, live, b)
    ensures b.nextId > 0 && GrantsOk(s.chunks, live, b.nextId) && ReservedOk(s.regions, b.reserved)
            && b.memoryLimit < WORD
    ensures b.bytesInUse == BytesInUse(s.chunks) + Total(b.reserved)
    ensures b.currRegionBytes % GRAIN == 0 && (b.currRegionBytes == 0 ==> b.memoryLimit == 0)
  {
    hide GrantsOk, ReservedOk, BytesInUse, Total, RegionBytes;
  }

  lemma ExtendBooks(s: Heap, live: set<Handle>, b: Books, s': Heap, live': set<Handle>, ptr: nat, size: nat, h: Handle,
                    curr: nat)
    requires BooksOk(s, live, b) && KeepsGrants(s.chunks, live, s'.chunks, live', {})
             && BytesInUse(s'.chunks) == BytesInUse(s.chunks)
    requires s'.regions == SetHandle(AddRegion(s.regions, ptr, size), ptr, h)
             && ApartFromReserved(b.reserved, ptr, size)
    requires curr % GRAIN == 0 && curr > 0
    ensures BooksOk(s', live', b.(totalAllocated := b.totalAllocated + size, currRegionBytes := curr))
  {
    hide GrantsOk, KeepsGrants, BytesInUse, Total, RegionBytes, ReservedOk, SameRanges, SetHandle, AddRegion,
      ApartFromReserved;
    GrantsFrame(s.chunks, live, s'.chunks, live', b.nextId);
    var mid := AddRegion(s.regions, ptr, size);
    ReservedAddRegion(s.regions, b.reserved, ptr, size);
    RegionBytesAdd(s.regions, ptr, size);
    SetSameRanges(mid, ptr, h);
    ReservedFrame(mid, s'.regions, b.reserved);
    RegionBytesSame(mid, s'.regions);
  }

  lemma CurrBooks(s: Heap, live: set<Handle>, b: Books, curr: nat)
    requires BooksOk(s, live, b) && curr % GRAIN == 0 && curr > 0
    ensures BooksOk(s, live, b.(currRegionBytes := curr))
  {
    hide GrantsOk, BytesInUse, Total, RegionBytes, ReservedOk;
  }

  lemma ReserveBooks(s: Heap, live: set<Handle>, b: Books, p: nat, size: nat, maxBytesInUse: nat)
    requires BooksOk(s, live, b) && p !in b.reserved && size > 0
             && maxBytesInUse == Max(b.maxBytesInUse, b.bytesInUse + size)
    requires p > 0 ==> ApartFrom(s.regions, p, size) && ApartFromReserved(b.reserved, p, size)
    ensures BooksOk(s, live, b.(reserved := b.reserved[p := size], bytesInUse := b.bytesInUse + size,
                                totalAllocated := b.totalAllocated + size, maxBytesInUse := maxBytesInUse))
  {
    hide GrantsOk, BytesInUse, Total, RegionBytes, ApartFrom;
    TotalAdd(b.reserved, p, size);
  }

  lemma UnreserveBooks(s: Heap, live: set<Handle>, b: Books, p: nat)
    requires BooksOk(s, live, b) && p in b.reserved
    ensures b.bytesInUse >= b.reserved[p] && b.totalAllocated >= b.reserved[p]
    ensures BooksOk(s, live, b.(reserved := b.reserved - {p}, bytesInUse := b.bytesInUse - b.reserved[p],
                                totalAllocated := b.totalAllocated - b.reserved[p]))
  {
    hide GrantsOk, BytesInUse, Total, RegionBytes, ApartFrom;
    TotalRemove(b.reserved, p);
  }

  lemma ReleaseBooks(s: Heap, live: set<Handle>, b: Books, s': Heap, live': set<Handle>, h: Handle)
    requires BooksOk(s, live, b) && Granted(s.chunks, live, h)
    requires KeepsGrants(s.chunks, live, s'.chunks, live', {h}) && !Granted(s'.chunks, live', h)
             && SameRanges(s.regions, s'.regions)
    requires BytesInUse(s'.chunks) == BytesInUse(s.chunks) - s.chunks[h].size && b.bytesInUse >= s.chunks[h].size
    ensures BooksOk(s', live', b.(bytesInUse := b.bytesInUse - s.chunks[h].size))
  {
    hide GrantsOk, KeepsGrants, BytesInUse, Total, RegionBytes, ReservedOk, SameRanges;
    GrantsDrop(s.chunks, live, s'.chunks, live', b.nextId, h);
    ReservedFrame(s.regions, s'.regions, b.reserved);
    RegionBytesSame(s.regions, s'.regions);
  }

  lemma FreshAt(device: Device, regions: seq<Region>, reserved: map<nat, nat>, k: nat, b: nat)
    requires HandsOutFresh(device, regions, reserved) && b > 0
    ensures device(k, b) != 0 ==> ApartFrom(regions, device(k, b), b) && ApartFromReserved(reserved, device(k, b), b)
  {
  }

  /** A free chunk at least as large also fits. */
  lemma FitsLess(chunks: seq<Chunk>, live: set<Handle>, more: nat, less: nat, h: Handle)
    requires Fits(chunks, live, more, h) && less <= more
    ensures Fits(chunks, live, less, h) && SomeFit(chunks, live, less)
  {
  }

  lemma ArenaHandles(s: Heap, live: set<Handle>, recycled: seq<Handle>, b: Books)
    requires ArenaOk(s, live, recycled, b)
    ensures HandlesOk(s.chunks, live) && b.memoryLimit < WORD
  {
    hide BooksOk;
    BooksFacts(s, live, b);
  }

  lemma ArenaGrant(s: Heap, live: set<Handle>, recycled: seq<Handle>, b: Books, h: Handle)
    requires ArenaOk(s, live, recycled, b) && Granted(s.chunks, live, h)
    ensures GrantOk(s.chunks[h]) && b.bytesInUse >= s.chunks[h].size
  {
    hide Coherent, GrantOk, ReservedOk, BytesInUse;
    BytesInclude(s.chunks, h);
  }

  lemma {:induction false} BytesInclude(chunks: seq<Chunk>, h: Handle)
    requires 0 <= h < |chunks|
    ensures BytesInUse(chunks) >= Weight(chunks[h])
  {
    if h > 0 { BytesInclude(chunks[1..], h - 1); }
  }

  lemma BestNotGranted(chunks: seq<Chunk>, live: set<Handle>, bytes: nat, h: Handle)
    requires BestFit(chunks, live, bytes, h)
    ensures !Granted(chunks, live, h)
  {
  }

  /** The table finds the chunk that starts at the grain of p. */
  lemma LookupFinds(s: Heap, live: set<Handle>, recycled: seq<Handle>, p: nat)
    requires Coherent(s, live, recycled, {}, NONE)
    ensures var h := Lookup(s.regions, p);
            && (h != NONE ==> h in live && 0 <= h < |s.chunks| && s.chunks[h].ptr == Floor(s.regions, p))
            && (forall k :: k in live && 0 <= k < |s.chunks| && s.chunks[k].ptr == Floor(s.regions, p) ==> h == k)
  {
    hide Coherent, Lookup, Floor, NextOk, PrevOk, Placed, RegionsOk, FirstOk, Apart;
    CoherentParts(s, live, recycled, {}, NONE);
    LookupFloor(s.regions, p);
    assert EntryOk(s.chunks, live, s.regions, p);
  }
}
