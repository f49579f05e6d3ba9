/**
 The session's cache of memory patterns, keyed by the exclusive or of all feed dimensions, and the
 runs that fill it and replay from it.
 */
module PatternCache {
  import opened Wrappers
  import opened GraphModel
  import opened PlanSafety
  import opened MemPattern
  import opened MemPatternTheorems

  /** A 64-bit integer, as its bits. */
  datatype Int64 = Int64(bits: bv64)

  type Shape = seq<Int64>

  const ZERO := Int64(0)

  function XorBits(a: bv64, b: bv64): bv64 {
    a ^ b
  }

  function Xor(a: Int64, b: Int64): Int64 {
    Int64(XorBits(a.bits, b.bits))
  }

  lemma XorBitsAssociates(a: bv64, b: bv64, c: bv64)
    ensures XorBits(XorBits(a, b), c) == XorBits(a, XorBits(b, c))
  {
  }

  lemma XorBitsLaws(a: bv64, b: bv64)
    ensures XorBits(a, b) == XorBits(b, a) && XorBits(a, a) == 0 && XorBits(a, 0) == a
  {
  }

  lemma XorLaws(a: Int64, b: Int64, c: Int64)
    ensures Xor(Xor(a, b), c) == Xor(a, Xor(b, c)) && Xor(a, b) == Xor(b, a)
    ensures Xor(a, a) == ZERO && Xor(a, ZERO) == a == Xor(ZERO, a)
  {
    hide XorBits;
    XorBitsAssociates(a.bits, b.bits, c.bits);
    XorBitsLaws(a.bits, b.bits);
    XorBitsLaws(0, a.bits);
  }

  // ----- the key

  function FoldDims(dims: Shape): Int64 {
    if dims == [] then ZERO else Xor(FoldDims(dims[..|dims| - 1]), dims[|dims| - 1])
  }

  function Key(shapes: seq<Shape>): Int64 {
    if shapes == [] then ZERO else Xor(Key(shapes[..|shapes| - 1]), FoldDims(shapes[|shapes| - 1]))
  }

  method CalculateMemoryPatternsKey(shapes: seq<Shape>) returns (key: Int64)
    ensures key == Key(shapes)
  {
    hide Xor;
    key := ZERO;
    for i := 0 to |shapes|
      invariant key == Key(shapes[..i])
    {
      ghost var before := key;
      XorLaws(before, ZERO, ZERO);
      for k := 0 to |shapes[i]|
        invariant key == Xor(before, FoldDims(shapes[i][..k]))
      {
        assert shapes[i][..k + 1][..k] == shapes[i][..k];
        XorLaws(before, FoldDims(shapes[i][..k]), shapes[i][k]);
        key := Xor(key, shapes[i][k]);
      }
      assert shapes[i][..|shapes[i]|] == shapes[i] && shapes[..i + 1][..i] == shapes[..i];
    }
    assert shapes[..|shapes|] == shapes;
  }

  lemma {:induction false} KeyConcat(a: seq<Shape>, b: seq<Shape>)
    ensures Key(a + b) == Xor(Key(a), Key(b))
  {
    hide Xor;
    if b == [] {
      assert a + b == a;
      XorLaws(Key(a), ZERO, ZERO);
    } else {
      var n := |b| - 1;
      assert (a + b)[..|a + b| - 1] == a + b[..n];
      KeyConcat(a, b[..n]);
      XorLaws(Key(a), Key(b[..n]), FoldDims(b[n]));
    }
  }

  lemma KeyOne(x: Shape)
    ensures Key([x]) == FoldDims(x)
  {
    assert [x][..0] == [];
    XorLaws(FoldDims(x), ZERO, ZERO);
  }

  /** Moving one shape to the end does not change the key. */
  lemma KeyMove(shapes: seq<Shape>, i: nat)
    requires i < |shapes|
    ensures Key(shapes) == Xor(Key(shapes[..i] + shapes[i + 1..]), FoldDims(shapes[i]))
  {
    hide Xor, Key, FoldDims;
    var a, x, c := shapes[..i], shapes[i], shapes[i + 1..];
    assert shapes == (a + [x]) + c;
    KeyConcat(a + [x], c);
    KeyConcat(a, [x]);
    KeyConcat(a, c);
    KeyOne(x);
    XorLaws(Key(a), FoldDims(x), Key(c));
    XorLaws(FoldDims(x), Key(c), ZERO);
    XorLaws(Key(a), Key(c), FoldDims(x));
  }

  lemma DropOne(a: seq<Shape>, b: seq<Shape>, i: nat)
    requires multiset(a) == multiset(b) && i < |a| && |b| > 0 && a[i] == b[|b| - 1]
    ensures multiset(a[..i] + a[i + 1..]) == multiset(b[..|b| - 1])
  {
    assert a == a[..i] + [a[i]] + a[i + 1..];
    assert b == b[..|b| - 1] + [b[|b| - 1]];
    assert multiset(a[..i] + a[i + 1..]) == multiset(a) - multiset{a[i]};
    assert multiset(b[..|b| - 1]) == multiset(b) - multiset{a[i]};
  }

  /** The key does not depend on the order in which the feeds are visited. */
  lemma {:induction false} KeyIgnoresOrder(a: seq<Shape>, b: seq<Shape>)
    requires multiset(a) == multiset(b)
    ensures Key(a) == Key(b)
    decreases |b|
  {
    hide Xor, Key, FoldDims;
    if b == [] {
      assert |multiset(a)| == 0;
    } else {
      var n := |b| - 1;
      assert b[n] in multiset(b) && b[n] in multiset(a);
      var i :| 0 <= i < |a| && a[i] == b[n];
      DropOne(a, b, i);
      KeyIgnoresOrder(a[..i] + a[i + 1..], b[..n]);
      KeyMove(a, i);
      KeyMove(b, n);
      assert b[..n] + b[n + 1..] == b[..n];
    }
  }

  /** Different feeds can collide: a dimension that occurs twice leaves no mark. */
  lemma KeysCollide(shapes: seq<Shape>, d: Int64)
    ensures Key(shapes + [[d, d]]) == Key(shapes)
  {
    hide Xor, Key;
    KeyConcat(shapes, [[d, d]]);
    KeyOne([d, d]);
    assert [d, d][..1] == [d] && [d][..0] == [];
    assert FoldDims([d]) == Xor(ZERO, d);
    XorLaws(d, d, ZERO);
    XorLaws(Key(shapes), ZERO, ZERO);
  }

  // ----- what the key tells

  /** Bit number k of a dimension. */
  predicate HasBit(d: Int64, k: bv64)
    requires k < 64
  {
    (d.bits >> k) & 1 == 1
  }

  lemma XorBit(a: Int64, b: Int64, k: bv64)
    requires k < 64
    ensures HasBit(Xor(a, b), k) <==> HasBit(a, k) != HasBit(b, k)
  {
  }

  lemma ZeroHasNoBit(k: bv64)
    requires k < 64
    ensures !HasBit(ZERO, k)
  {
  }

  /** How many of the dimensions have bit k. */
  function CountDims(dims: Shape, k: bv64): nat
    requires k < 64
  {
    if dims == [] then 0
    else CountDims(dims[..|dims| - 1], k) + if HasBit(dims[|dims| - 1], k) then 1 else 0
  }

  function CountBit(shapes: seq<Shape>, k: bv64): nat
    requires k < 64
  {
    if shapes == [] then 0 else CountBit(shapes[..|shapes| - 1], k) + CountDims(shapes[|shapes| - 1], k)
  }

  lemma {:induction false} FoldDimsBit(dims: Shape, k: bv64)
    requires k < 64
    ensures HasBit(FoldDims(dims), k) <==> CountDims(dims, k) % 2 == 1
  {
    hide HasBit, Xor;
    if dims == [] {
      ZeroHasNoBit(k);
    } else {
      FoldDimsBit(dims[..|dims| - 1], k);
      XorBit(FoldDims(dims[..|dims| - 1]), dims[|dims| - 1], k);
    }
  }

  /** A bit of the key is set exactly if an odd number of all the feeds' dimensions have it. */
  lemma {:induction false} KeyIsParity(shapes: seq<Shape>, k: bv64)
    requires k < 64
    ensures HasBit(Key(shapes), k) <==> CountBit(shapes, k) % 2 == 1
  {
    hide HasBit, Xor, FoldDims, CountDims;
    if shapes == [] {
      ZeroHasNoBit(k);
    } else {
      var n := |shapes| - 1;
      KeyIsParity(shapes[..n], k);
      FoldDimsBit(shapes[n], k);
      XorBit(Key(shapes[..n]), FoldDims(shapes[n]), k);
    }
  }

  // ----- the cache

  class SessionState {
    var memPatterns: map<Int64, Pattern>

    constructor ()
      ensures memPatterns == map[]
    {
      memPatterns := map[];
    }

    method GetMemoryPatternGroup(shapes: seq<Shape>) returns (p: Option<Pattern>)
      ensures p == if Key(shapes) in memPatterns then Some(memPatterns[Key(shapes)]) else None
    {
      var key := CalculateMemoryPatternsKey(shapes);
      p := if key in memPatterns then Some(memPatterns[key]) else None;
    }

    /** The first pattern stored under a key stays. */
    method UpdateMemoryPatternGroupCache(shapes: seq<Shape>, p: Pattern)
      modifies this
      ensures memPatterns.Keys == old(memPatterns).Keys + {Key(shapes)}
      ensures forall k :: k in old(memPatterns) ==> memPatterns[k] == old(memPatterns)[k]
      ensures Key(shapes) !in old(memPatterns) ==> memPatterns[Key(shapes)] == p
    {
      var key := CalculateMemoryPatternsKey(shapes);
      if key !in memPatterns {
        memPatterns := memPatterns[key := p];
      }
    }
  }

  /** Every cached pattern was traced on this schedule, whatever the sizes then were. */
  ghost predicate CacheOk(cache: map<Int64, Pattern>, sched: seq<Event>, traced: Traced) {
    forall k :: k in cache ==> exists size: Sizes :: cache[k] == FinalPattern(sched, size, traced)
  }

  // ----- one run

  datatype Placement = OwnBuffer | InChunk(block: Block)

  /** Where a value goes: into the chunk only if its block has exactly the size now asked for. */
  function PlaceOf(p: Option<Pattern>, v: nat, size: nat, traced: bool): Placement {
    if traced && p.Some? && v in p.value.patterns && p.value.patterns[v].size == size
    then InChunk(p.value.patterns[v]) else OwnBuffer
  }

  /** The value defined at event i is in use just before event n. */
  ghost predicate LiveAt(sched: seq<Event>, i: nat, n: nat) {
    i < n <= |sched| && sched[i].Define? && Alive(sched, i, n)
  }

  /** Nonempty blocks of the chunk lie inside it and apart. */
  ghost predicate Apart(a: Placement, b: Placement, chunk: nat) {
    a.InChunk? && b.InChunk? && a.block.size > 0 && b.block.size > 0 ==>
      Disjoint(a.block, b.block) && End(a.block) <= chunk && End(b.block) <= chunk
  }

  lemma AliveUntil(sched: seq<Event>, i: nat, j: nat, n: nat)
    requires LiveAt(sched, i, n) && i < j <= n
    ensures Alive(sched, i, j)
  {
  }

  lemma ReplayInOrder(sched: seq<Event>, was: Sizes, size: Sizes, traced: Traced, i: nat, j: nat, n: nat)
    requires DefinedOnce(sched) && i < j && LiveAt(sched, i, n) && LiveAt(sched, j, n)
    ensures var p := FinalPattern(sched, was, traced);
            var u, v := sched[i].v, sched[j].v;
            Apart(PlaceOf(Some(p), u, size(u), traced(u)), PlaceOf(Some(p), v, size(v), traced(v)), p.peakSize)
  {
    hide FinalPattern, Alive, DefinedOnce, Slot, Disjoint;
    var u, v := sched[i].v, sched[j].v;
    AliveUntil(sched, i, j, n);
    if traced(u) && traced(v) {
      PatternSize(sched, was, traced, i);
      PatternSize(sched, was, traced, j);
      if was(u) > 0 && was(v) > 0 {
        LiveTogetherDisjoint(sched, was, traced, i, j);
      }
    }
  }

  lemma PatternSize(sched: seq<Event>, size: Sizes, traced: Traced, i: nat)
    requires DefinedOnce(sched) && i < |sched| && sched[i].Define? && traced(sched[i].v)
    ensures sched[i].v in FinalPattern(sched, size, traced).patterns
    ensures FinalPattern(sched, size, traced).patterns[sched[i].v].size == size(sched[i].v)
  {
    hide FinalPattern;
    PatternHolds(sched, size, traced, i);
  }

  /**
   Replaying a pattern is safe even if the shapes now are not those it was traced with: two values
   in use at the same time never overlap in the chunk.
   */
  lemma ReplayIsSafe(sched: seq<Event>, was: Sizes, size: Sizes, traced: Traced, i: nat, j: nat, n: nat)
    requires DefinedOnce(sched) && i != j && LiveAt(sched, i, n) && LiveAt(sched, j, n)
    ensures var p := FinalPattern(sched, was, traced);
            var u, v := sched[i].v, sched[j].v;
            Apart(PlaceOf(Some(p), u, size(u), traced(u)), PlaceOf(Some(p), v, size(v), traced(v)), p.peakSize)
  {
    hide FinalPattern, Alive, DefinedOnce;
    if i < j {
      ReplayInOrder(sched, was, size, traced, i, j, n);
    } else {
      ReplayInOrder(sched, was, size, traced, j, i, n);
    }
  }

  /** When the sizes are the traced ones, every traced value finds its place in the chunk. */
  lemma ReplayPlacesEverything(sched: seq<Event>, size: Sizes, traced: Traced, i: nat)
    requires DefinedOnce(sched) && i < |sched| && sched[i].Define? && traced(sched[i].v)
    ensures PlaceOf(Some(FinalPattern(sched, size, traced)), sched[i].v, size(sched[i].v), true).InChunk?
  {
    PatternHolds(sched, size, traced, i);
  }

  /**
   Replaying a pattern, a value goes into the chunk exactly if it is traced and as big as it was then, and it goes
   where the trace put it; other sizes do not matter.
   */
  lemma InChunkExactlyIf(sched: seq<Event>, was: Sizes, traced: Traced, i: nat, size: nat)
    requires DefinedOnce(sched) && i < |sched| && sched[i].Define?
    ensures var v, p := sched[i].v, FinalPattern(sched, was, traced);
            && (PlaceOf(Some(p), v, size, traced(v)).InChunk? <==> traced(v) && was(v) == size)
            && (traced(v) && was(v) == size ==>
                  && Slot(sched, was, traced, i) < |After(sched, was, traced, i + 1).allocs|
                  && PlaceOf(Some(p), v, size, traced(v)).block ==
                     After(sched, was, traced, i + 1).allocs[Slot(sched, was, traced, i)].block)
  {
    hide FinalPattern, DefinedOnce, After;
    if traced(sched[i].v) { PatternHolds(sched, was, traced, i); }
  }

  /** What is defined, and nothing else, has a place, and values in use at the same time are apart. */
  ghost predicate AllApart(sched: seq<Event>, places: map<nat, Placement>, chunk: nat) {
    && (forall i :: 0 <= i < |sched| && sched[i].Define? ==> sched[i].v in places)
    && (forall v :: v in places ==> Define(v) in sched)
    && (forall i: nat, j: nat, n: nat :: i != j && LiveAt(sched, i, n) && LiveAt(sched, j, n) ==>
          Apart(places[sched[i].v], places[sched[j].v], chunk))
  }

  /**
   A run: without a cached pattern it traces one and stores it; with one it places what fits.  The
   chunk has the pattern's peak size.
   */
  method Run(session: SessionState, shapes: seq<Shape>, sched: seq<Event>, size: Sizes, traced: Traced)
    returns (places: map<nat, Placement>, chunk: nat)
    requires DefinedOnce(sched) && CacheOk(session.memPatterns, sched, traced)
    modifies session
    ensures CacheOk(session.memPatterns, sched, traced)
    ensures session.memPatterns.Keys == old(session.memPatterns).Keys + {Key(shapes)}
    ensures forall k :: k in old(session.memPatterns) ==> session.memPatterns[k] == old(session.memPatterns)[k]
    ensures Key(shapes) !in old(session.memPatterns) ==>
              session.memPatterns[Key(shapes)] == FinalPattern(sched, size, traced)
    ensures AllApart(sched, places, chunk)
    ensures var cache, key := old(session.memPatterns), Key(shapes);
            var p := if key in cache then Some(cache[key]) else None;
            && chunk == (if p.Some? then p.value.peakSize else 0)
            && forall i :: 0 <= i < |sched| && sched[i].Define? ==>
                 && sched[i].v in places
                 && places[sched[i].v] == PlaceOf(p, sched[i].v, size(sched[i].v), traced(sched[i].v))
  {
    hide FinalPattern, Alive, DefinedOnce, AllApart, PatternOf, CacheOk, Placed, AfterAllocation, AfterFree;
    ghost var cache := session.memPatterns;
    var p := session.GetMemoryPatternGroup(shapes);
    chunk := if p.Some? then p.value.peakSize else 0;
    var planner := new MemPatternPlanner();
    places := map[];
    PlacedNone(sched, size, traced, p);
    for k := 0 to |sched|
      invariant fresh(planner) && session.memPatterns == cache
      invariant p.None? ==> planner.State() == After(sched, size, traced, k)
      invariant Placed(sched, size, traced, p, places, k)
    {
      PlacedStep(sched, size, traced, p, places, k);
      hide PlaceOf;
      match sched[k]
      case Define(v) =>
        places := places[v := PlaceOf(p, v, size(v), traced(v))];
        if traced(v) && p.None? { planner.TraceAllocation(v, size(v)); }
      case Release(v) =>
        if traced(v) && p.None? { planner.TraceFree(v); }
    }
    PlacedAll(sched, size, traced, p, places);
    if p.None? {
      var pattern := planner.GenerateMemPattern();
      FinalPatternIs(sched, size, traced, planner.State());
      NothingInChunk(sched, size, traced, places, chunk);
      session.UpdateMemoryPatternGroupCache(shapes, pattern);
      CacheGrows(cache, session.memPatterns, sched, traced, Key(shapes), size);
    } else {
      CachedWas(cache, sched, traced, Key(shapes));
      ReplayApart(cache, sched, size, traced, Key(shapes), places);
    }
  }

  /** The values defined before event k are where the pattern puts them. */
  ghost predicate Placed(sched: seq<Event>, size: Sizes, traced: Traced, p: Option<Pattern>, places: map<nat,
                         Placement>, k: nat) {
    && (forall i :: 0 <= i < k <= |sched| && sched[i].Define? ==>
          sched[i].v in places && places[sched[i].v] == PlaceOf(p, sched[i].v, size(sched[i].v), traced(sched[i].v)))
    && (forall v :: v in places ==> Define(v) in sched)
  }

  lemma PlacedNone(sched: seq<Event>, size: Sizes, traced: Traced, p: Option<Pattern>)
    ensures Placed(sched, size, traced, p, map[], 0)
  {
  }

  lemma PlacedStep(sched: seq<Event>, size: Sizes, traced: Traced, p: Option<Pattern>, places: map<nat, Placement>,
                   k: nat)
    requires k < |sched| && Placed(sched, size, traced, p, places, k)
    ensures var v := sched[k].v;
            var after := if sched[k].Define? then places[v := PlaceOf(p, v, size(v), traced(v))] else places;
            Placed(sched, size, traced, p, after, k + 1)
  {
    hide PlaceOf;
  }

  lemma PlacedAll(sched: seq<Event>, size: Sizes, traced: Traced, p: Option<Pattern>, places: map<nat, Placement>)
    requires Placed(sched, size, traced, p, places, |sched|)
    ensures forall i :: 0 <= i < |sched| && sched[i].Define? ==>
              sched[i].v in places && places[sched[i].v] == PlaceOf(p, sched[i].v, size(sched[i].v), traced(sched[i].v))
  {
    hide PlaceOf;
  }

  lemma NothingInChunk(sched: seq<Event>, size: Sizes, traced: Traced, places: map<nat, Placement>, chunk: nat)
    requires Placed(sched, size, traced, None, places, |sched|)
    ensures AllApart(sched, places, chunk)
  {
    hide Alive;
  }

  lemma CacheGrows(before: map<Int64, Pattern>, cache: map<Int64, Pattern>, sched: seq<Event>, traced: Traced,
                   key: Int64, size: Sizes)
    requires CacheOk(before, sched, traced) && cache.Keys == before.Keys + {key}
             && cache[key] == FinalPattern(sched, size, traced)
    requires forall k :: k in before ==> cache[k] == before[k]
    ensures CacheOk(cache, sched, traced)
  {
    hide FinalPattern;
  }

  lemma CachedWas(cache: map<Int64, Pattern>, sched: seq<Event>, traced: Traced, key: Int64)
    requires CacheOk(cache, sched, traced) && key in cache
    ensures cache.Keys == cache.Keys + {key}
  {
  }

  lemma ReplayApart(cache: map<Int64, Pattern>, sched: seq<Event>, size: Sizes, traced: Traced, key: Int64,
                    places: map<nat, Placement>)
    requires DefinedOnce(sched) && CacheOk(cache, sched, traced) && key in cache
    requires Placed(sched, size, traced, Some(cache[key]), places, |sched|)
    ensures AllApart(sched, places, cache[key].peakSize)
  {
    hide FinalPattern, Alive, DefinedOnce, Apart, PlaceOf;
    var was: Sizes :| cache[key] == FinalPattern(sched, was, traced);
    forall i: nat, j: nat, n: nat | i != j && LiveAt(sched, i, n) && LiveAt(sched, j, n)
      ensures Apart(places[sched[i].v], places[sched[j].v], cache[key].peakSize)
    {
      ReplayIsSafe(sched, was, size, traced, i, j, n);
    }
  }

  lemma FinalPatternIs(sched: seq<Event>, size: Sizes, traced: Traced, st: PlannerState)
    requires st == After(sched, size, traced, |sched|)
    ensures FinalPattern(sched, size, traced) == Pattern(PatternOf(st.allocs), st.bufferSize)
  {
  }

  // ----- the schedule a plan fixes

  function Defines(vs: seq<nat>): seq<Event> {
    seq(|vs|, i requires 0 <= i < |vs| => Define(vs[i]))
  }

  function Releases(vs: seq<nat>): seq<Event> {
    seq(|vs|, i requires 0 <= i < |vs| => Release(vs[i]))
  }

  function Freed(plan: Plan, pc: nat): seq<nat> {
    if pc < |plan.steps| && 0 <= plan.steps[pc].freeFrom <= plan.steps[pc].freeTo < |plan.toBeFreed|
    then plan.toBeFreed[plan.steps[pc].freeFrom..plan.steps[pc].freeTo + 1] else []
  }

  /** Definitions and releases of the first pc steps; nothing in it depends on shapes. */
  function Schedule(g: Graph, plan: Plan, pc: nat): seq<Event>
    requires pc <= |g.nodes|
  {
    if pc == 0 then []
    else Schedule(g, plan, pc - 1) + Defines(Existing(g.nodes[pc - 1].outputs)) + Releases(Freed(plan, pc - 1))
  }

  lemma NothingScheduled(g: Graph, plan: Plan)
    ensures Schedule(g, plan, 0) == []
  {
  }

  lemma {:induction false} ScheduledAreDefined(g: Graph, plan: Plan, pc: nat, v: nat)
    requires pc <= |g.nodes| && Define(v) in Schedule(g, plan, pc)
    ensures v in Defined(g, pc)
  {
    hide Schedule, Existing;
    NothingScheduled(g, plan);
    var k :| 0 <= k < |Schedule(g, plan, pc)| && Schedule(g, plan, pc)[k] == Define(v);
    ScheduledAt(g, plan, pc - 1, k);
    if k < |Schedule(g, plan, pc - 1)| {
      ScheduledAreDefined(g, plan, pc - 1, v);
    }
  }

  /** The i-th event of a step's definitions, if it is one. */
  lemma ScheduledAt(g: Graph, plan: Plan, pc: nat, k: nat)
    requires pc < |g.nodes| && k < |Schedule(g, plan, pc + 1)| && Schedule(g, plan, pc + 1)[k].Define?
    ensures var before, outputs := Schedule(g, plan, pc), Existing(g.nodes[pc].outputs);
            if k < |before| then Schedule(g, plan, pc + 1)[k] == before[k]
            else k - |before| < |outputs| && Schedule(g, plan, pc + 1)[k].v == outputs[k - |before|]
  {
  }

  /** In a valid graph the plan's schedule defines every value at most once. */
  lemma {:induction false} ScheduleDefinesOnce(g: Graph, plan: Plan, pc: nat)
    requires WellFormed(g) && pc <= |g.nodes|
    ensures DefinedOnce(Schedule(g, plan, pc))
  {
    hide *;
    if pc == 0 {
      NothingScheduled(g, plan);
      NothingTwice();
    } else {
      ScheduleDefinesOnce(g, plan, pc - 1);
      ValidNode(g, pc - 1);
      StepDefinesOnce(g, plan, pc - 1);
    }
  }

  lemma NothingTwice()
    ensures DefinedOnce([])
  {
  }

  lemma ValidNode(g: Graph, pc: nat)
    requires WellFormed(g) && pc < |g.nodes|
    ensures NodeOk(g, pc)
  {
    hide NodeOk;
  }

  lemma StepDefinesOnce(g: Graph, plan: Plan, pc: nat)
    requires pc < |g.nodes| && NodeOk(g, pc) && DefinedOnce(Schedule(g, plan, pc))
    ensures DefinedOnce(Schedule(g, plan, pc + 1))
  {
    hide Schedule, NodeOk;
    var sched := Schedule(g, plan, pc + 1);
    forall i, j | 0 <= i < j < |sched| && sched[i].Define? && sched[j].Define?
      ensures sched[i].v != sched[j].v
    {
      OneDefinition(g, plan, pc, i, j);
    }
  }

  lemma OneDefinition(g: Graph, plan: Plan, pc: nat, i: nat, j: nat)
    requires pc < |g.nodes| && NodeOk(g, pc) && DefinedOnce(Schedule(g, plan, pc))
    requires i < j < |Schedule(g, plan, pc + 1)|
    requires Schedule(g, plan, pc + 1)[i].Define? && Schedule(g, plan, pc + 1)[j].Define?
    ensures Schedule(g, plan, pc + 1)[i].v != Schedule(g, plan, pc + 1)[j].v
  {
    hide Schedule, ArgsInRange, Existing, Defined;
    ScheduledAt(g, plan, pc, i);
    ScheduledAt(g, plan, pc, j);
    var before := Schedule(g, plan, pc);
    if i < |before| <= j {
      assert Define(before[i].v) in before;
      ScheduledAreDefined(g, plan, pc, before[i].v);
    }
  }
}
