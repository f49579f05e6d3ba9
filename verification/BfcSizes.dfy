/** The arena's arithmetic: rounding, what the limit leaves, how much to ask the device for. */
module BfcSizes {
  import opened BfcRegions

  /** One more than the largest size_t. */
  const WORD: nat := 0x1_0000_0000_0000_0000

  const MAX_INTERNAL_FRAGMENTATION: nat := 0x800_0000

  const BACKPEDAL_FLOOR: nat := 2304

  /** Rounds up to whole grains, in size_t arithmetic. */
  function RoundedBytes(bytes: nat): nat {
    GRAIN * ((bytes + GRAIN - 1) % WORD / GRAIN)
  }

  /** Rounding gives the next whole number of grains, except for the last sizes before the word overflows. */
  lemma RoundedIsEnough(bytes: nat)
    requires bytes < WORD
    ensures RoundedBytes(bytes) % GRAIN == 0
    ensures RoundedBytes(bytes) >= bytes <==> bytes <= WORD - GRAIN
    ensures bytes <= WORD - GRAIN ==>
              RoundedBytes(bytes) < bytes + GRAIN && (bytes > 0 ==> RoundedBytes(bytes) >= GRAIN)
  {
    if bytes <= WORD - GRAIN {
      assert (bytes + GRAIN - 1) % WORD == bytes + GRAIN - 1;
    } else {
      assert (bytes + GRAIN - 1) % WORD == bytes + GRAIN - 1 - WORD;
    }
  }

  /** What the limit leaves, in whole grains; the difference is a size_t. */
  function Available(limit: nat, total: nat): nat {
    (limit - total) % WORD / GRAIN * GRAIN
  }

  lemma AvailableIsGrains(limit: nat, total: nat)
    ensures Available(limit, total) % GRAIN == 0 && Available(limit, total) < WORD
  {
    var x := (limit - total) % WORD;
    assert 0 <= x < WORD;
  }

  /** Less than a grain of what the limit leaves is lost; past the limit the difference wraps around. */
  lemma AvailableIsTight(limit: nat, total: nat)
    requires limit < WORD && total < WORD
    ensures var left := if total <= limit then limit - total else limit - total + WORD;
            left - GRAIN < Available(limit, total) <= left
  {
    var left := if total <= limit then limit - total else limit - total + WORD;
    assert (limit - total) % WORD == left;
  }

  /** Whole grains are available exactly if they fit under the limit. */
  lemma AvailableExactly(limit: nat, total: nat, rounded: nat)
    requires total <= limit < WORD && rounded % GRAIN == 0
    ensures rounded <= Available(limit, total) <==> total + rounded <= limit
  {
    AvailableIsTight(limit, total);
    AvailableIsGrains(limit, total);
    hide Available;
  }

  /** The limit is respected exactly when it has not been passed already. */
  lemma AvailableWithinLimit(limit: nat, total: nat)
    requires limit < WORD && total < WORD
    ensures total + Available(limit, total) <= limit <==> total <= limit
    ensures total > limit ==> total + Available(limit, total) > limit + WORD - GRAIN
  {
    if total <= limit {
      assert (limit - total) % WORD == limit - total;
    } else {
      assert (limit - total) % WORD == limit - total + WORD;
    }
  }

  /** The size doubled k times. */
  ghost function Doublings(size: nat, k: nat): nat {
    if k == 0 then size else 2 * Doublings(size, k - 1)
  }

  lemma {:induction false} DoublingsShift(size: nat, k: nat)
    ensures Doublings(2 * size, k) == Doublings(size, k + 1)
  {
    if k > 0 { DoublingsShift(size, k - 1); }
  }

  /** The region size after doubling until it is enough. */
  function Doubled(size: nat, bytes: nat): (r: nat)
    requires size > 0
    ensures r >= bytes && r >= size && (size % GRAIN == 0 ==> r % GRAIN == 0)
    ensures r > size ==> r < 2 * bytes
    decreases if bytes > size then bytes - size else 0
  {
    if bytes > size then TwiceGrains(size); Doubled(size * 2, bytes) else size
  }

  lemma TwiceGrains(size: nat)
    ensures size % GRAIN == 0 ==> size * 2 % GRAIN == 0
  {
  }

  /** It is doubled a whole number of times, and no more often than needed. */
  lemma {:induction false} DoubledIsLeast(size: nat, bytes: nat) returns (k: nat)
    requires size > 0
    ensures Doubled(size, bytes) == Doublings(size, k) && (k > 0 ==> Doublings(size, k - 1) < bytes)
    decreases if bytes > size then bytes - size else 0
  {
    if bytes <= size {
      k := 0;
    } else {
      var n := DoubledIsLeast(2 * size, bytes);
      k := n + 1;
      DoublingsShift(size, n);
      if n > 0 { DoublingsShift(size, n - 1); }
    }
  }

  // ----- backing off when the device refuses

  /** Nine tenths, rounded up to whole grains. */
  function Shrink(bytes: nat): nat {
    RoundedBytes(bytes * 9 / 10)
  }

  /** Backing off makes progress exactly above nine grains, and never goes below them. */
  lemma ShrinkProgress(bytes: nat)
    requires bytes % GRAIN == 0 && bytes < WORD
    ensures Shrink(bytes) % GRAIN == 0
    ensures Shrink(bytes) < bytes <==> bytes > BACKPEDAL_FLOOR
    ensures bytes <= BACKPEDAL_FLOOR ==> Shrink(bytes) == bytes
    ensures bytes > BACKPEDAL_FLOOR ==> Shrink(bytes) >= BACKPEDAL_FLOOR
    ensures 9 * bytes <= 10 * Shrink(bytes) < 9 * bytes + 10 * GRAIN
  {
    var n, less := bytes / GRAIN, bytes * 9 / 10;
    assert (less + GRAIN - 1) % WORD == less + GRAIN - 1;
    NineTenths(n, less, (less + GRAIN - 1) / GRAIN);
  }

  lemma NineTenths(n: nat, less: nat, m: nat)
    requires 10 * less <= 9 * GRAIN * n < 10 * less + 10
    requires GRAIN * m <= less + GRAIN - 1 < GRAIN * m + GRAIN
    ensures n <= 9 ==> m == n
    ensures n > 9 ==> 9 <= m < n
    ensures 9 * n <= 10 * m < 9 * n + 10
  {
  }

  /** Bytes asked for after n refusals. */
  function Asked(bytes: nat, n: nat): nat {
    if n == 0 then bytes else Shrink(Asked(bytes, n - 1))
  }

  /** The requests between the first one and the k-th were refused. */
  ghost predicate RefusedBefore(device: (nat, nat) -> nat, bytes: nat, k: nat) {
    forall j :: 0 < j < k ==> device(j, Asked(bytes, j)) == 0
  }

  /**
   If the device keeps refusing, the loop gives up exactly when more than nine grains are needed;
   otherwise it asks for the same amount again and again.
   */
  lemma {:induction false} AskedBounds(bytes: nat, n: nat)
    requires bytes % GRAIN == 0 && bytes < WORD
    ensures Asked(bytes, n) % GRAIN == 0 && Asked(bytes, n) <= bytes
    ensures Asked(bytes, n) >= if bytes <= BACKPEDAL_FLOOR then bytes else BACKPEDAL_FLOOR
    ensures Asked(bytes, n) <= BACKPEDAL_FLOOR || Asked(bytes, n) + n * GRAIN <= bytes
  {
    hide Shrink;
    if n > 0 {
      AskedBounds(bytes, n - 1);
      var before := Asked(bytes, n - 1);
      ShrinkProgress(before);
      if before > BACKPEDAL_FLOOR { AGrainLess(Shrink(before), before); }
    }
  }

  lemma AGrainLess(less: nat, more: nat)
    requires less < more && less % GRAIN == 0 && more % GRAIN == 0
    ensures less + GRAIN <= more
  {
  }

  lemma AskedFirst(bytes: nat)
    ensures Asked(bytes, 0) == bytes
  {
  }

  lemma {:induction false} AskedShrinks(bytes: nat, m: nat, n: nat)
    requires bytes % GRAIN == 0 && bytes < WORD && m <= n
    ensures Asked(bytes, n) <= Asked(bytes, m)
  {
    if m < n {
      AskedShrinks(bytes, m, n - 1);
      AskedBounds(bytes, n - 1);
      ShrinkProgress(Asked(bytes, n - 1));
    }
  }

  lemma GivesUpExactlyAboveFloor(bytes: nat, needed: nat)
    requires bytes % GRAIN == 0 && needed % GRAIN == 0 && 0 < needed <= bytes < WORD
    ensures (exists n :: Asked(bytes, n) < needed) <==> needed > BACKPEDAL_FLOOR
  {
    if needed > BACKPEDAL_FLOOR {
      AskedBounds(bytes, bytes);
      assert Asked(bytes, bytes) < needed;
    } else {
      forall n: nat
        ensures Asked(bytes, n) >= needed
      {
        AskedBounds(bytes, n);
      }
    }
  }

  // ----- sums

  ghost function RegionBytes(regions: seq<Region>): nat {
    if regions == [] then 0 else regions[0].size + RegionBytes(regions[1..])
  }

  lemma {:induction false} RegionBytesConcat(a: seq<Region>, b: seq<Region>)
    ensures RegionBytes(a + b) == RegionBytes(a) + RegionBytes(b)
  {
    if a == [] {
      assert a + b == b;
    } else {
      assert (a + b)[1..] == a[1..] + b;
      RegionBytesConcat(a[1..], b);
    }
  }

  lemma RegionBytesAdd(regions: seq<Region>, ptr: nat, size: nat)
    ensures RegionBytes(AddRegion(regions, ptr, size)) == RegionBytes(regions) + size
  {
    var i := RegionFor(regions, ptr);
    hide RegionFor;
    assert regions == regions[..i] + regions[i..];
    RegionBytesConcat(regions[..i], regions[i..]);
    RegionBytesConcat(regions[..i], [NewRegion(ptr, size)]);
    RegionBytesConcat(regions[..i] + [NewRegion(ptr, size)], regions[i..]);
  }

  lemma {:induction false} RegionBytesSame(a: seq<Region>, b: seq<Region>)
    requires SameRanges(a, b)
    ensures RegionBytes(a) == RegionBytes(b)
  {
    if a != [] { RegionBytesSame(a[1..], b[1..]); }
  }

  ghost function Total(m: map<nat, nat>): nat
    decreases |m|
  {
    if m == map[] then 0
    else
      var k :| k in m;
      m[k] + Total(m - {k})
  }

  lemma {:induction false} TotalRemove(m: map<nat, nat>, k: nat)
    requires k in m
    ensures Total(m) == m[k] + Total(m - {k})
    decreases |m|
  {
    var j :| j in m && Total(m) == m[j] + Total(m - {j});
    if j != k {
      TotalRemove(m - {j}, k);
      TotalRemove(m - {k}, j);
      assert m - {j} - {k} == m - {k} - {j};
    }
  }

  lemma TotalAdd(m: map<nat, nat>, k: nat, v: nat)
    requires k !in m
    ensures Total(m[k := v]) == Total(m) + v
  {
    TotalRemove(m[k := v], k);
    assert m[k := v] - {k} == m;
  }
}
