/**
 Free chunks in bins by size, the recycled handles, and the bytes in use: the bookkeeping that has
 to agree with the tiling.
 */
module BfcBins {
  import opened BfcRegions
  import opened BfcChunks

  const NUM_BINS: nat := 21

  // ----- which bin

  function Pow2(n: nat): nat {
    if n == 0 then 1 else 2 * Pow2(n - 1)
  }

  function Log2(n: nat): nat
    requires n > 0
  {
    if n == 1 then 0 else 1 + Log2(n / 2)
  }

  lemma {:induction false} Log2Bounds(n: nat)
    requires n > 0
    ensures Pow2(Log2(n)) <= n < 2 * Pow2(Log2(n))
  {
    if n > 1 { Log2Bounds(n / 2); }
  }

  lemma {:induction false} Log2Monotone(m: nat, n: nat)
    requires 0 < m <= n
    ensures Log2(m) <= Log2(n)
  {
    if m > 1 { Log2Monotone(m / 2, n / 2); }
  }

  /** Counts the shifts until nothing is left. */
  method Log2FloorNonZeroSlow(n: nat) returns (r: int)
    ensures n == 0 ==> r == -1
    ensures n > 0 ==> r >= 0 && Pow2(r) <= n < 2 * Pow2(r)
  {
    var m := n;
    r := 0;
    while m > 0
      invariant r >= 0 && (n == 0 ==> r == 0)
      invariant n > 0 ==> r + (if m == 0 then 0 else Log2(m) + 1) == Log2(n) + 1
    {
      r, m := r + 1, m / 2;
    }
    r := r - 1;
    if n > 0 { Log2Bounds(n); }
  }

  function BinNumForSize(bytes: nat): (b: nat)
    ensures b < NUM_BINS
  {
    var v := (if bytes < GRAIN then GRAIN else bytes) / GRAIN;
    if Log2(v) < NUM_BINS - 1 then Log2(v) else NUM_BINS - 1
  }

  /** Bin b holds the sizes from 256 * 2^b up to, but not including, twice that; the last bin holds the rest. */
  lemma BinRange(bytes: nat, b: nat)
    requires bytes >= GRAIN && b < NUM_BINS
    ensures BinNumForSize(bytes) == b <==>
            GRAIN * Pow2(b) <= bytes && (b < NUM_BINS - 1 ==> bytes < 2 * GRAIN * Pow2(b))
  {
    var v := bytes / GRAIN;
    Log2Bounds(v);
    if Log2(v) < b { Pow2Monotone(Log2(v) + 1, b); } else if b < Log2(v) { Pow2Monotone(b + 1, Log2(v)); }
  }

  lemma {:induction false} Pow2Monotone(m: nat, n: nat)
    requires m <= n
    ensures Pow2(m) <= Pow2(n)
  {
    if m < n { Pow2Monotone(m, n - 1); }
  }

  lemma BinMonotone(a: nat, b: nat)
    requires a <= b
    ensures BinNumForSize(a) <= BinNumForSize(b)
  {
    hide Log2;
    Log2Monotone((if a < GRAIN then GRAIN else a) / GRAIN, (if b < GRAIN then GRAIN else b) / GRAIN);
  }

  // ----- the bins

  /** A live chunk is in a bin exactly when it is free, and then in the bin of its size. */
  ghost predicate Settled(c: Chunk, bins: seq<set<Handle>>, h: Handle) {
    && (c.bin != -1 <==> !InUse(c))
    && (c.bin != -1 ==> c.bin == BinNumForSize(c.size) && c.bin < |bins| && h in bins[c.bin])
  }

  ghost predicate Loose(c: Chunk) {
    !InUse(c) && c.bin == -1
  }

  /** `loose` are free chunks that an operation has taken out of their bin. */
  ghost predicate BinsOk(chunks: seq<Chunk>, live: set<Handle>, bins: seq<set<Handle>>, loose: set<Handle>)
    requires HandlesOk(chunks, live)
  {
    && |bins| == NUM_BINS
    && (forall b, h :: 0 <= b < |bins| && h in bins[b] ==> h in live && h !in loose && chunks[h].bin == b)
    && (forall h :: h in live && h !in loose ==> Settled(chunks[h], bins, h))
    && (forall h :: h in live && h in loose ==> Loose(chunks[h]))
  }

  function Unbinned(chunks: seq<Chunk>, h: Handle): seq<Chunk>
    requires 0 <= h < |chunks|
  {
    chunks[h := chunks[h].(bin := -1)]
  }

  lemma RemoveKeepsBins(chunks: seq<Chunk>, live: set<Handle>, bins: seq<set<Handle>>, loose: set<Handle>, h: Handle)
    requires HandlesOk(chunks, live) && BinsOk(chunks, live, bins, loose) && h in live && chunks[h].bin != -1
    ensures h !in loose && 0 <= chunks[h].bin < |bins| && h in bins[chunks[h].bin]
    ensures BinsOk(Unbinned(chunks, h), live, bins[chunks[h].bin := bins[chunks[h].bin] - {h}], loose + {h})
  {
    assert Settled(chunks[h], bins, h);
    hide BinNumForSize;
  }

  lemma InsertKeepsBins(chunks: seq<Chunk>, live: set<Handle>, bins: seq<set<Handle>>, loose: set<Handle>, h: Handle)
    requires HandlesOk(chunks, live) && BinsOk(chunks, live, bins, loose) && h in live && h in loose
    ensures var b := BinNumForSize(chunks[h].size);
            b < |bins| && BinsOk(chunks[h := chunks[h].(bin := b)], live, bins[b := bins[b] + {h}], loose - {h})
  {
    hide BinNumForSize;
    assert Loose(chunks[h]);
    var b := BinNumForSize(chunks[h].size);
    var chunks', bins' := chunks[h := chunks[h].(bin := b)], bins[b := bins[b] + {h}];
    forall k | k in live && k !in loose - {h}
      ensures Settled(chunks'[k], bins', k)
    {
      if k != h { assert Settled(chunks[k], bins, k); }
    }
  }

  /** Chunks outside `loose` keep what the bins depend on. */
  ghost predicate SameBin(a: Chunk, b: Chunk) {
    a.id == b.id && a.bin == b.bin && (a.bin != -1 ==> a.size == b.size)
  }

  lemma BinsFrame(chunks: seq<Chunk>, live: set<Handle>, bins: seq<set<Handle>>, loose: set<Handle>,
                  chunks': seq<Chunk>, live': set<Handle>, loose': set<Handle>)
    requires HandlesOk(chunks, live) && BinsOk(chunks, live, bins, loose) && HandlesOk(chunks', live')
    requires forall k :: k in live && k !in loose ==> k in live' && k !in loose' && SameBin(chunks[k], chunks'[k])
    requires forall k :: k in live' && k in loose' ==> Loose(chunks'[k])
    requires forall k ::
               k in live' && k !in loose' ==> (k in live && k !in loose) || (InUse(chunks'[k]) && chunks'[k].bin == -1)
    ensures BinsOk(chunks', live', bins, loose')
  {
    hide BinNumForSize;
    forall k | k in live' && k !in loose'
      ensures Settled(chunks'[k], bins, k)
    {
      if k in live && k !in loose { assert Settled(chunks[k], bins, k) && SameBin(chunks[k], chunks'[k]); }
    }
    forall b, h | 0 <= b < |bins| && h in bins[b]
      ensures h in live' && h !in loose' && chunks'[h].bin == b
    {
      assert h in live && h !in loose && SameBin(chunks[h], chunks'[h]);
    }
  }

  // ----- no two neighbours free

  /** Of two free neighbours one is x. */
  ghost predicate NoTwins(chunks: seq<Chunk>, live: set<Handle>, x: Handle)
    requires HandlesOk(chunks, live)
  {
    forall h, k :: h in live && k in live && chunks[h].next == k && !InUse(chunks[h]) && !InUse(chunks[k]) ==>
      h == x || k == x
  }

  // ----- recycled handles

  /** The list reached from `head` by next links. */
  ghost predicate RecycledFrom(chunks: seq<Chunk>, head: Handle, list: seq<Handle>)
    decreases |list|
  {
    if list == [] then head == NONE
    else head == list[0] && 0 <= head < |chunks| && RecycledFrom(chunks, chunks[head].next, list[1..])
  }

  /** Every handle is either used or recycled, once, and what is recycled is free and in no bin. */
  ghost predicate Pool(chunks: seq<Chunk>, used: set<Handle>, head: Handle, list: seq<Handle>) {
    && RecycledFrom(chunks, head, list)
    && (forall i, j :: 0 <= i < j < |list| ==> list[i] != list[j])
    && (forall h :: h in list <==> 0 <= h < |chunks| && h !in used)
    && (forall h :: h in list && 0 <= h < |chunks| ==> Loose(chunks[h]))
  }

  lemma {:induction false} RecycledSame(a: seq<Chunk>, b: seq<Chunk>, head: Handle, list: seq<Handle>)
    requires RecycledFrom(a, head, list) && |a| <= |b|
             && forall h :: h in list && 0 <= h < |a| ==> a[h].next == b[h].next
    ensures RecycledFrom(b, head, list)
    decreases |list|
  {
    if list != [] { RecycledSame(a, b, a[head].next, list[1..]); }
  }

  lemma PoolFrame(a: seq<Chunk>, b: seq<Chunk>, used: set<Handle>, head: Handle, list: seq<Handle>)
    requires Pool(a, used, head, list) && |a| == |b| && forall h :: h in list && 0 <= h < |a| ==> a[h] == b[h]
    ensures Pool(b, used, head, list)
  {
    RecycledSame(a, b, head, list);
  }

  lemma PoolGrow(a: seq<Chunk>, used: set<Handle>, head: Handle, list: seq<Handle>, c: Chunk)
    requires Pool(a, used, head, list)
    ensures Pool(a + [c], used + {|a|}, head, list)
  {
    RecycledSame(a, a + [c], head, list);
  }

  lemma PoolTake(chunks: seq<Chunk>, used: set<Handle>, head: Handle, list: seq<Handle>)
    requires Pool(chunks, used, head, list) && head != NONE
    ensures list != [] && head == list[0] && 0 <= head < |chunks| && head !in used && Loose(chunks[head])
    ensures Pool(chunks, used + {head}, chunks[head].next, list[1..])
  {
    assert head in list;
    forall h
      ensures h in list[1..] <==> 0 <= h < |chunks| && h !in used + {head}
    {
      assert list == [list[0]] + list[1..];
      if h in list[1..] {
        var i :| 0 <= i < |list[1..]| && list[1..][i] == h;
        assert list[i + 1] == h;
      }
    }
  }

  lemma PoolGive(chunks: seq<Chunk>, used: set<Handle>, head: Handle, list: seq<Handle>, h: Handle)
    requires Pool(chunks, used, head, list) && h in used && 0 <= h < |chunks| && Loose(chunks[h])
    ensures Pool(chunks[h := chunks[h].(next := head)], used - {h}, h, [h] + list)
  {
    var chunks' := chunks[h := chunks[h].(next := head)];
    assert h !in list;
    RecycledSame(chunks, chunks', head, list);
    assert ([h] + list)[1..] == list;
    forall i, j | 0 <= i < j < |[h] + list|
      ensures ([h] + list)[i] != ([h] + list)[j]
    {
      assert ([h] + list)[j] == list[j - 1] && list[j - 1] in list;
    }
  }

  // ----- bytes in use

  function Weight(c: Chunk): nat {
    if InUse(c) then c.size else 0
  }

  ghost function BytesInUse(chunks: seq<Chunk>): nat {
    if chunks == [] then 0 else Weight(chunks[0]) + BytesInUse(chunks[1..])
  }

  lemma {:induction false} BytesSame(a: seq<Chunk>, b: seq<Chunk>)
    requires |a| == |b| && forall i :: 0 <= i < |a| ==> Weight(a[i]) == Weight(b[i])
    ensures BytesInUse(a) == BytesInUse(b)
  {
    if a != [] { BytesSame(a[1..], b[1..]); }
  }

  lemma {:induction false} BytesAppend(a: seq<Chunk>, c: Chunk)
    ensures BytesInUse(a + [c]) == BytesInUse(a) + Weight(c)
  {
    if a != [] {
      BytesAppend(a[1..], c);
      assert (a + [c])[1..] == a[1..] + [c];
    }
  }

  lemma {:induction false} BytesUpdate(a: seq<Chunk>, h: nat, c: Chunk)
    requires h < |a|
    ensures BytesInUse(a[h := c]) == BytesInUse(a) - Weight(a[h]) + Weight(c)
  {
    if h == 0 {
      assert a[h := c][1..] == a[1..];
    } else {
      BytesUpdate(a[1..], h - 1, c);
      assert a[h := c][1..] == a[1..][h - 1 := c];
    }
  }
}
