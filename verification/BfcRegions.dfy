/**
 The memory the arena got from the device: regions sorted by address, each with a table that
 maps every 256-byte grain to the handle of the chunk starting there.
 */
module BfcRegions {
  type Handle = int

  /** The invalid handle. */
  const NONE: Handle := -1

  const GRAIN: nat := 256

  datatype Region = Region(ptr: nat, size: nat, handles: seq<Handle>)

  function EndOf(r: Region): nat {
    r.ptr + r.size
  }

  /** Whole grains, one table entry each; no region touches the null address. */
  ghost predicate RegionOk(r: Region) {
    r.ptr > 0 && r.size > 0 && r.size % GRAIN == 0 && |r.handles| == r.size / GRAIN
  }

  ghost predicate RegionsOk(regions: seq<Region>) {
    && (forall i :: 0 <= i < |regions| ==> RegionOk(regions[i]))
    && (forall i, j :: 0 <= i < j < |regions| ==> EndOf(regions[i]) <= regions[j].ptr)
  }

  /** Index of the first region that ends after p. */
  function UpperBound(regions: seq<Region>, p: nat, from: nat): (i: nat)
    requires from <= |regions|
    ensures from <= i <= |regions|
    ensures i < |regions| ==> p < EndOf(regions[i])
    ensures forall k :: from <= k < i ==> EndOf(regions[k]) <= p
    decreases |regions| - from
  {
    if from == |regions| || p < EndOf(regions[from]) then from else UpperBound(regions, p, from + 1)
  }

  function RegionFor(regions: seq<Region>, p: nat): (i: nat)
    ensures i <= |regions|
  {
    UpperBound(regions, p, 0)
  }

  ghost predicate Within(r: Region, p: nat) {
    r.ptr <= p < EndOf(r)
  }

  /** p lies in some region. */
  predicate Covered(regions: seq<Region>, p: nat) {
    var i := RegionFor(regions, p);
    i < |regions| && regions[i].ptr <= p
  }

  function HomeStart(regions: seq<Region>, p: nat): nat {
    if Covered(regions, p) then regions[RegionFor(regions, p)].ptr else p
  }

  function HomeEnd(regions: seq<Region>, p: nat): nat {
    if Covered(regions, p) then EndOf(regions[RegionFor(regions, p)]) else p
  }

  /** Start of the grain that holds p. */
  function Floor(regions: seq<Region>, p: nat): nat {
    var base := HomeStart(regions, p);
    if base <= p then base + (p - base) / GRAIN * GRAIN else p
  }

  /** The table entry for p; outside all regions there is none. */
  function Lookup(regions: seq<Region>, p: nat): Handle {
    var i := RegionFor(regions, p);
    if i < |regions| && regions[i].ptr <= p && (p - regions[i].ptr) / GRAIN < |regions[i].handles|
    then regions[i].handles[(p - regions[i].ptr) / GRAIN] else NONE
  }

  function SetHandle(regions: seq<Region>, p: nat, h: Handle): seq<Region> {
    var i := RegionFor(regions, p);
    if i < |regions| && regions[i].ptr <= p && (p - regions[i].ptr) / GRAIN < |regions[i].handles|
    then regions[i := regions[i].(handles := regions[i].handles[(p - regions[i].ptr) / GRAIN := h])]
    else regions
  }

  function NewRegion(ptr: nat, size: nat): Region {
    Region(ptr, size, seq(size / GRAIN, _ => NONE))
  }

  /** Inserted before the first region that ends after its start. */
  function AddRegion(regions: seq<Region>, ptr: nat, size: nat): seq<Region> {
    var i := RegionFor(regions, ptr);
    regions[..i] + [NewRegion(ptr, size)] + regions[i..]
  }

  lemma RegionForIs(regions: seq<Region>, p: nat, r: nat)
    requires RegionsOk(regions) && r < |regions| && Within(regions[r], p)
    ensures RegionFor(regions, p) == r && Covered(regions, p)
    ensures HomeStart(regions, p) == regions[r].ptr && HomeEnd(regions, p) == EndOf(regions[r])
  {
  }

  lemma CoveredBy(regions: seq<Region>, p: nat)
    requires RegionsOk(regions) && Covered(regions, p)
    ensures RegionFor(regions, p) < |regions| && Within(regions[RegionFor(regions, p)], p)
    ensures RegionOk(regions[RegionFor(regions, p)])
    ensures HomeStart(regions, p) <= p < HomeEnd(regions, p) && 0 < HomeStart(regions, p)
    ensures Floor(regions, p) <= p < Floor(regions, p) + GRAIN && Floor(regions, p) >= HomeStart(regions, p)
  {
  }

  /** Addresses of the same region have the same home. */
  lemma SameHome(regions: seq<Region>, p: nat, q: nat)
    requires RegionsOk(regions) && Covered(regions, p) && HomeStart(regions, p) <= q < HomeEnd(regions, p)
    ensures Covered(regions, q) && RegionFor(regions, q) == RegionFor(regions, p)
    ensures HomeStart(regions, q) == HomeStart(regions, p) && HomeEnd(regions, q) == HomeEnd(regions, p)
  {
    RegionForIs(regions, q, RegionFor(regions, p));
  }

  /** A table entry covers exactly the addresses of its grain. */
  lemma LookupFloor(regions: seq<Region>, p: nat)
    requires RegionsOk(regions)
    ensures Lookup(regions, Floor(regions, p)) == Lookup(regions, p)
    ensures Covered(regions, p) ==> Covered(regions, Floor(regions, p))
    ensures Covered(regions, p) ==>
              (p - regions[RegionFor(regions, p)].ptr) / GRAIN < |regions[RegionFor(regions, p)].handles|
    ensures Lookup(regions, p) != NONE ==> Covered(regions, p)
  {
    if Covered(regions, p) {
      CoveredBy(regions, p);
      SameHome(regions, p, Floor(regions, p));
      hide RegionFor;
      GrainIndex(p - HomeStart(regions, p));
    }
  }

  lemma GrainIndex(x: nat)
    ensures x / GRAIN * GRAIN / GRAIN == x / GRAIN
  {
  }

  /** What setting one entry does to every lookup. */
  lemma SetLookup(regions: seq<Region>, p: nat, h: Handle, q: nat)
    requires RegionsOk(regions) && Covered(regions, p)
    ensures Lookup(SetHandle(regions, p, h), q) ==
            if Floor(regions, q) == Floor(regions, p) then h else Lookup(regions, q)
  {
    hide RegionFor, Floor, HomeStart, HomeEnd, RegionsOk;
    LookupFloor(regions, p);
    SameBounds(regions, p, h, q);
    if Covered(regions, q) {
      LookupFloor(regions, q);
      SameGrain(regions, p, q);
    } else {
      OutsideFloor(regions, p, q);
    }
  }

  lemma OutsideFloor(regions: seq<Region>, p: nat, q: nat)
    requires RegionsOk(regions) && Covered(regions, p) && !Covered(regions, q)
    ensures Floor(regions, q) != Floor(regions, p)
  {
    LookupFloor(regions, p);
    hide RegionFor;
  }

  lemma SameGrain(regions: seq<Region>, p: nat, q: nat)
    requires RegionsOk(regions) && Covered(regions, p) && Covered(regions, q)
    ensures Floor(regions, q) == Floor(regions, p) <==>
            RegionFor(regions, q) == RegionFor(regions, p)
            && (q - regions[RegionFor(regions, q)].ptr) / GRAIN == (p - regions[RegionFor(regions, p)].ptr) / GRAIN
  {
    if RegionFor(regions, q) == RegionFor(regions, p) {
      FloorInjective(HomeStart(regions, p), p, q);
    } else if Floor(regions, q) == Floor(regions, p) {
      SameHomeIfSameFloor(regions, p, q);
    }
  }

  lemma FloorInjective(base: nat, p: nat, q: nat)
    requires base <= p && base <= q
    ensures (p - base) / GRAIN * GRAIN == (q - base) / GRAIN * GRAIN <==> (p - base) / GRAIN == (q - base) / GRAIN
  {
    GrainIndex(p - base);
    GrainIndex(q - base);
  }

  lemma SameHomeIfSameFloor(regions: seq<Region>, p: nat, q: nat)
    requires RegionsOk(regions) && Covered(regions, p) && Covered(regions, q) && Floor(regions, p) == Floor(regions, q)
    ensures RegionFor(regions, p) == RegionFor(regions, q)
  {
    CoveredBy(regions, p);
    CoveredBy(regions, q);
    SameHome(regions, p, Floor(regions, p));
    SameHome(regions, q, Floor(regions, q));
  }

  lemma RegionsStayOk(regions: seq<Region>, p: nat, h: Handle)
    requires RegionsOk(regions)
    ensures RegionsOk(SetHandle(regions, p, h))
  {
    hide RegionFor;
  }

  /** Setting an entry moves no region. */
  lemma SameBounds(regions: seq<Region>, p: nat, h: Handle, q: nat)
    requires RegionsOk(regions)
    ensures var regions' := SetHandle(regions, p, h);
            && RegionsOk(regions') && |regions'| == |regions|
            && RegionFor(regions', q) == RegionFor(regions, q) && (Covered(regions', q) <==> Covered(regions, q))
            && HomeStart(regions', q) == HomeStart(regions, q) && HomeEnd(regions', q) == HomeEnd(regions, q)
            && Floor(regions', q) == Floor(regions, q)
  {
    hide UpperBound, RegionOk;
    var regions' := SetHandle(regions, p, h);
    assert forall i :: 0 <= i < |regions| ==> regions'[i].ptr == regions[i].ptr && regions'[i].size == regions[i].size;
    RegionsStayOk(regions, p, h);
    UpperBoundSame(regions, regions', q, 0);
  }

  lemma {:induction false} UpperBoundSame(a: seq<Region>, b: seq<Region>, p: nat, from: nat)
    requires |a| == |b| && from <= |a| && forall i :: 0 <= i < |a| ==> a[i].ptr == b[i].ptr && a[i].size == b[i].size
    ensures UpperBound(a, p, from) == UpperBound(b, p, from)
    decreases |a| - from
  {
    if from < |a| && !(p < EndOf(a[from])) { UpperBoundSame(a, b, p, from + 1); }
  }

  ghost predicate SameRanges(a: seq<Region>, b: seq<Region>) {
    |a| == |b| && forall i :: 0 <= i < |a| ==> a[i].ptr == b[i].ptr && a[i].size == b[i].size
  }

  lemma SetSameRanges(regions: seq<Region>, p: nat, h: Handle)
    ensures SameRanges(regions, SetHandle(regions, p, h))
  {
    hide RegionFor;
  }

  lemma RangesTransitive(a: seq<Region>, b: seq<Region>, c: seq<Region>)
    requires SameRanges(a, b) && SameRanges(b, c)
    ensures SameRanges(a, c)
  {
  }

  lemma RangesReflexive(a: seq<Region>)
    ensures SameRanges(a, a)
  {
  }

  // ----- a new region

  ghost predicate ApartFrom(regions: seq<Region>, ptr: nat, size: nat) {
    forall i :: 0 <= i < |regions| ==> EndOf(regions[i]) <= ptr || ptr + size <= regions[i].ptr
  }

  lemma AddShape(regions: seq<Region>, ptr: nat, size: nat)
    ensures var i, regions' := RegionFor(regions, ptr), AddRegion(regions, ptr, size);
            && |regions'| == |regions| + 1 && regions'[i] == NewRegion(ptr, size)
            && (forall k :: 0 <= k < i ==> regions'[k] == regions[k])
            && (forall k :: i < k < |regions'| ==> regions'[k] == regions[k - 1])
  {
    hide RegionFor;
  }

  lemma AddRegionOk(regions: seq<Region>, ptr: nat, size: nat)
    requires RegionsOk(regions) && ptr > 0 && size > 0 && size % GRAIN == 0 && ApartFrom(regions, ptr, size)
    ensures RegionsOk(AddRegion(regions, ptr, size))
  {
    AddShape(regions, ptr, size);
    var i, regions' := RegionFor(regions, ptr), AddRegion(regions, ptr, size);
    assert RegionOk(NewRegion(ptr, size));
    hide AddRegion, RegionOk;
    forall j, k | 0 <= j < k < |regions'|
      ensures EndOf(regions'[j]) <= regions'[k].ptr
    {
      if k == i {
        assert regions'[j] == regions[j];
      } else if j == i {
        assert regions'[k] == regions[k - 1] && EndOf(regions[i]) <= EndOf(regions[k - 1]);
      }
    }
  }

  /** A fresh region changes nothing about addresses outside it, and starts with an empty table. */
  lemma AddLookup(regions: seq<Region>, ptr: nat, size: nat, q: nat)
    requires RegionsOk(regions) && ptr > 0 && size > 0 && size % GRAIN == 0 && ApartFrom(regions, ptr, size)
    ensures var regions' := AddRegion(regions, ptr, size);
            if ptr <= q < ptr + size
            then Covered(regions', q) && HomeStart(regions', q) == ptr && HomeEnd(regions', q) == ptr + size
                 && Lookup(regions', q) == NONE && !Covered(regions, q)
            else (Covered(regions', q) <==> Covered(regions, q)) && HomeStart(regions', q) == HomeStart(regions, q)
                 && HomeEnd(regions', q) == HomeEnd(regions, q) && Floor(regions', q) == Floor(regions, q)
                 && Lookup(regions', q) == Lookup(regions, q)
  {
    hide AddRegion, RegionFor, RegionsOk, ApartFrom;
    var i, regions' := RegionFor(regions, ptr), AddRegion(regions, ptr, size);
    AddShape(regions, ptr, size);
    AddRegionOk(regions, ptr, size);
    if ptr <= q < ptr + size {
      RegionForIs(regions', q, i);
      NotCoveredByOthers(regions, ptr, size, q);
    } else if Covered(regions, q) {
      CoveredBy(regions, q);
      var r := RegionFor(regions, q);
      RegionForIs(regions', q, if r < i then r else r + 1);
    } else {
      NotCoveredAfter(regions, ptr, size, q);
    }
  }

  lemma NotCoveredByOthers(regions: seq<Region>, ptr: nat, size: nat, q: nat)
    requires RegionsOk(regions) && ApartFrom(regions, ptr, size) && ptr <= q < ptr + size
    ensures !Covered(regions, q)
  {
    hide RegionFor, RegionsOk;
    if Covered(regions, q) {
      CoveredBy(regions, q);
      assert false;
    }
  }

  lemma NotCoveredAfter(regions: seq<Region>, ptr: nat, size: nat, q: nat)
    requires RegionsOk(regions) && RegionsOk(AddRegion(regions, ptr, size)) && !Covered(regions, q)
             && !(ptr <= q < ptr + size)
    ensures !Covered(AddRegion(regions, ptr, size), q)
  {
    hide AddRegion, RegionFor, RegionsOk;
    var i, regions' := RegionFor(regions, ptr), AddRegion(regions, ptr, size);
    AddShape(regions, ptr, size);
    if Covered(regions', q) {
      CoveredBy(regions', q);
      var r := RegionFor(regions', q);
      RegionForIs(regions, q, if r < i then r else r - 1);
      assert false;
    }
  }
}
