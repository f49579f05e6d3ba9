/** What a traced run guarantees about the offsets, for every schedule of allocations and frees. */
module MemPatternTheorems {
  import opened Wrappers
  import opened MemPattern

  /** Blocks in use are nonempty, in order of offset, disjoint, and below the recorded peak. */
  ghost predicate Layout(st: PlannerState) {
    && InRange(st)
    && (forall i :: 0 <= i < |st.blocks| ==> At(st, i).size > 0 && End(At(st, i)) <= st.bufferSize)
    && (forall i, j :: 0 <= i < j < |st.blocks| ==> End(At(st, i)) <= At(st, j).offset)
  }

  /** Where the gap in front of block i starts. */
  ghost function GapStart(st: PlannerState, i: nat): nat
    requires InRange(st) && i <= |st.blocks|
  {
    if i == 0 then 0 else End(At(st, i - 1))
  }

  ghost function Gap(st: PlannerState, i: nat): int
    requires InRange(st) && i < |st.blocks|
  {
    At(st, i).offset - GapStart(st, i)
  }

  /** What the search knows after k blocks. */
  ghost predicate SearchOk(st: PlannerState, size: nat, k: nat, s: Search)
    requires InRange(st) && k <= |st.blocks|
  {
    && s.current == GapStart(st, k)
    && (s.waste.None? ==> s.pos == |st.blocks| && s.offset == GapStart(st, |st.blocks|))
    && (s.waste.None? ==> forall i :: 0 <= i < k ==> Gap(st, i) < size)
    && (s.waste.Some? ==> s.pos < k && s.offset == GapStart(st, s.pos) && Gap(st, s.pos) == size + s.waste.value)
    && (s.waste.Some? ==> forall i :: 0 <= i < k && Gap(st, i) >= size ==> Gap(st, i) - size >= s.waste.value)
    && (s.waste.Some? ==> forall i :: 0 <= i < s.pos && Gap(st, i) >= size ==> Gap(st, i) - size > s.waste.value)
  }

  lemma {:induction false} SearchIsBestFit(st: PlannerState, size: nat, k: nat)
    requires Layout(st) && k <= |st.blocks|
    ensures SearchOk(st, size, k, SearchAfter(st, size, k))
  {
    if k > 0 {
      hide Layout, SearchOk, Look;
      SearchIsBestFit(st, size, k - 1);
      GapsAreGaps(st, k - 1);
      LookKeepsSearch(st, size, k - 1, SearchAfter(st, size, k - 1));
    }
  }

  lemma GapsAreGaps(st: PlannerState, i: nat)
    requires Layout(st) && i < |st.blocks|
    ensures At(st, i).offset >= GapStart(st, i)
  {
  }

  lemma LookKeepsSearch(st: PlannerState, size: nat, k: nat, s: Search)
    requires InRange(st) && k < |st.blocks| && SearchOk(st, size, k, s) && At(st, k).offset >= GapStart(st, k)
    ensures SearchOk(st, size, k + 1, Look(s, At(st, k), k, size))
  {
    assert GapStart(st, k + 1) == End(At(st, k));
    assert Gap(st, k) == At(st, k).offset - s.current;
    hide GapStart, At, InRange, Gap;
  }

  /** Best fit: the first of the smallest gaps that are big enough, or the end when there is none. */
  lemma BestFit(st: PlannerState, size: nat)
    requires Layout(st)
    ensures var s := SearchAfter(st, size, |st.blocks|);
            && s.pos <= |st.blocks| && s.offset == GapStart(st, s.pos)
            && (s.pos == |st.blocks| <==> forall i :: 0 <= i < |st.blocks| ==> Gap(st, i) < size)
            && (s.pos < |st.blocks| ==>
                  && Gap(st, s.pos) >= size
                  && (forall i :: 0 <= i < |st.blocks| && Gap(st, i) >= size ==> Gap(st, i) >= Gap(st, s.pos))
                  && (forall i :: 0 <= i < s.pos && Gap(st, i) >= size ==> Gap(st, i) > Gap(st, s.pos)))
  {
    SearchIsBestFit(st, size, |st.blocks|);
  }

  /** The new block lies between its neighbours. */
  lemma Fits(st: PlannerState, size: nat, i: nat)
    requires Layout(st) && size > 0 && i < |st.blocks|
    ensures var s := SearchAfter(st, size, |st.blocks|);
            if i < s.pos then End(At(st, i)) <= s.offset else s.offset + size <= At(st, i).offset
  {
    BestFit(st, size);
    var s := SearchAfter(st, size, |st.blocks|);
    assert i < s.pos ==> End(At(st, i)) <= End(At(st, s.pos - 1));
    assert i >= s.pos ==> At(st, s.pos).offset <= At(st, i).offset by {
      if i > s.pos { assert End(At(st, s.pos)) <= At(st, i).offset; }
    }
  }

  lemma AllocationShape(st: PlannerState, index: nat, size: nat, k: nat)
    requires Layout(st) && size > 0 && k <= |st.blocks|
    ensures var s := SearchAfter(st, size, |st.blocks|);
            var st' := AfterAllocation(st, index, size);
            && s.pos <= |st.blocks| && |st'.blocks| == |st.blocks| + 1 && |st'.allocs| == |st.allocs| + 1
            && st'.blocks[k] ==
               (if k < s.pos then st.blocks[k] else if k == s.pos then |st.allocs| else st.blocks[k - 1])
            && st'.blocks[k] < |st'.allocs|
            && At(st', k) ==
               (if k < s.pos then At(st, k) else if k == s.pos then Block(s.offset, size) else At(st, k - 1))
            && st'.bufferSize >= s.offset + size && st'.bufferSize >= st.bufferSize
  {
    BestFit(st, size);
  }

  lemma NewOrder(st: PlannerState, index: nat, size: nat, i: nat, j: nat)
    requires Layout(st) && size > 0 && InRange(AfterAllocation(st, index, size))
    requires i < j < |AfterAllocation(st, index, size).blocks|
    ensures End(At(AfterAllocation(st, index, size), i)) <= At(AfterAllocation(st, index, size), j).offset
  {
    hide AfterAllocation, SearchAfter;
    var s := SearchAfter(st, size, |st.blocks|);
    AllocationShape(st, index, size, 0);
    AllocationShape(st, index, size, i);
    AllocationShape(st, index, size, j);
    if i == s.pos { Fits(st, size, j - 1); } else if j == s.pos { Fits(st, size, i); }
  }

  /** Tracing an allocation keeps the blocks sorted and disjoint. */
  lemma AllocationKeepsLayout(st: PlannerState, index: nat, size: nat)
    requires Layout(st)
    ensures Layout(AfterAllocation(st, index, size))
  {
    var st' := AfterAllocation(st, index, size);
    if size > 0 {
      var s := SearchAfter(st, size, |st.blocks|);
      forall k | 0 <= k < |st'.blocks|
        ensures st'.blocks[k] < |st'.allocs| && At(st', k).size > 0 && End(At(st', k)) <= st'.bufferSize
      {
        AllocationShape(st, index, size, k);
      }
      forall i, j | 0 <= i < j < |st'.blocks|
        ensures End(At(st', i)) <= At(st', j).offset
      {
        NewOrder(st, index, size, i, j);
      }
    } else {
      assert forall i :: 0 <= i < |st.blocks| ==> At(st', i) == At(st, i);
    }
  }

  /** Tracing a free keeps the blocks sorted and disjoint. */
  lemma FreeKeepsLayout(st: PlannerState, index: nat)
    requires Layout(st)
    ensures Layout(AfterFree(st, index))
  {
    var st' := AfterFree(st, index);
    var p := FindBlock(st, index, 0);
    if p < |st.blocks| {
      assert forall k :: 0 <= k < |st'.blocks| ==> st'.blocks[k] == st.blocks[if k < p then k else k + 1];
      forall k | 0 <= k < |st'.blocks|
        ensures At(st', k) == At(st, if k < p then k else k + 1)
      {
      }
    }
  }

  // ----- schedules

  /** One event of a run; which values are traced, and their sizes, are given separately. */
  datatype Event = Define(v: nat) | Release(v: nat)

  type Sizes = nat -> nat
  type Traced = nat -> bool

  function Step(st: PlannerState, e: Event, size: Sizes, traced: Traced): PlannerState
    requires forall i :: 0 <= i < |st.blocks| ==> st.blocks[i] < |st.allocs|
  {
    if !traced(e.v) then st
    else match e
      case Define(v) => AfterAllocation(st, v, size(v))
      case Release(v) => AfterFree(st, v)
  }

  lemma StepLayout(st: PlannerState, e: Event, size: Sizes, traced: Traced)
    requires Layout(st)
    ensures Layout(Step(st, e, size, traced))
  {
    match e
    case Define(v) => AllocationKeepsLayout(st, v, size(v));
    case Release(v) => FreeKeepsLayout(st, v);
  }

  /** The planner after the first n events. */
  ghost function After(sched: seq<Event>, size: Sizes, traced: Traced, n: nat): (st: PlannerState)
    requires n <= |sched|
    ensures Layout(st)
  {
    if n == 0 then EMPTY
    else
      StepLayout(After(sched, size, traced, n - 1), sched[n - 1], size, traced);
      Step(After(sched, size, traced, n - 1), sched[n - 1], size, traced)
  }

  /** Every value is defined at most once. */
  ghost predicate DefinedOnce(sched: seq<Event>) {
    forall i, j :: 0 <= i < j < |sched| && sched[i].Define? && sched[j].Define? ==> sched[i].v != sched[j].v
  }

  /** The value defined at event i has not been released before event n. */
  ghost predicate Alive(sched: seq<Event>, i: nat, n: nat)
    requires i < n <= |sched| && sched[i].Define?
  {
    forall k :: i < k < n ==> sched[k] != Release(sched[i].v)
  }

  /** All traced allocations so far are of values defined so far. */
  lemma {:induction false} TracedWereDefined(sched: seq<Event>, size: Sizes, traced: Traced, n: nat, k: nat)
    requires n <= |sched| && k < |After(sched, size, traced, n).allocs|
    ensures exists i :: 0 <= i < n && sched[i].Define? && sched[i].v == After(sched, size, traced, n).allocs[k].index
  {
    var before := After(sched, size, traced, n - 1);
    if k < |before.allocs| {
      TracedWereDefined(sched, size, traced, n - 1, k);
      var i :| 0 <= i < n - 1 && sched[i].Define? && sched[i].v == before.allocs[k].index;
    } else {
      assert sched[n - 1].Define?;
    }
  }

  /** With values defined once, no value is traced twice. */
  lemma {:induction false} TracedOnce(sched: seq<Event>, size: Sizes, traced: Traced, n: nat, j: nat, k: nat)
    requires DefinedOnce(sched) && n <= |sched| && j < k < |After(sched, size, traced, n).allocs|
    ensures After(sched, size, traced, n).allocs[j].index != After(sched, size, traced, n).allocs[k].index
  {
    var before := After(sched, size, traced, n - 1);
    if k < |before.allocs| {
      TracedOnce(sched, size, traced, n - 1, j, k);
    } else {
      TracedWereDefined(sched, size, traced, n - 1, j);
      var i :| 0 <= i < n - 1 && sched[i].Define? && sched[i].v == before.allocs[j].index;
      assert sched[n - 1].Define?;
    }
  }

  lemma StepGrows(st: PlannerState, e: Event, size: Sizes, traced: Traced)
    requires Layout(st)
    ensures st.allocs <= Step(st, e, size, traced).allocs && st.bufferSize <= Step(st, e, size, traced).bufferSize
  {
    hide SearchAfter;
  }

  lemma DefineAppends(st: PlannerState, v: nat, size: nat)
    requires Layout(st)
    ensures var st' := AfterAllocation(st, v, size);
            && |st'.allocs| == |st.allocs| + 1 && st.allocs <= st'.allocs && st'.allocs[|st.allocs|].index == v
            && st'.allocs[|st.allocs|].block.size == size && End(st'.allocs[|st.allocs|].block) <= st'.bufferSize
  {
    hide SearchAfter;
  }

  /** Allocations are only ever appended. */
  lemma {:induction false} AllocsGrow(sched: seq<Event>, size: Sizes, traced: Traced, m: nat, n: nat)
    requires m <= n <= |sched|
    ensures After(sched, size, traced, m).allocs <= After(sched, size, traced, n).allocs
    ensures After(sched, size, traced, m).bufferSize <= After(sched, size, traced, n).bufferSize
    decreases n
  {
    hide Layout, Step;
    if m < n {
      AllocsGrow(sched, size, traced, m, n - 1);
      StepGrows(After(sched, size, traced, n - 1), sched[n - 1], size, traced);
    }
  }

  /** Position in `allocs` of the value defined at event i. */
  ghost function Slot(sched: seq<Event>, size: Sizes, traced: Traced, i: nat): nat
    requires i < |sched|
  {
    |After(sched, size, traced, i).allocs|
  }

  lemma SlotHolds(sched: seq<Event>, size: Sizes, traced: Traced, i: nat, n: nat)
    requires i < n <= |sched| && sched[i].Define? && traced(sched[i].v)
    ensures var st := After(sched, size, traced, n);
            && Slot(sched, size, traced, i) < |st.allocs|
            && st.allocs[Slot(sched, size, traced, i)].index == sched[i].v
            && st.allocs[Slot(sched, size, traced, i)].block.size == size(sched[i].v)
            && End(st.allocs[Slot(sched, size, traced, i)].block) <= st.bufferSize
  {
    hide Layout, AfterAllocation;
    AllocsGrow(sched, size, traced, i + 1, n);
    DefineAppends(After(sched, size, traced, i), sched[i].v, size(sched[i].v));
  }

  /** A nonempty value that is alive is among the blocks in use. */
  lemma {:induction false} AliveIsInUse(sched: seq<Event>, size: Sizes, traced: Traced, i: nat, n: nat)
    requires DefinedOnce(sched) && i < n <= |sched| && sched[i].Define? && traced(sched[i].v)
    requires size(sched[i].v) > 0 && Alive(sched, i, n)
    ensures Slot(sched, size, traced, i) in After(sched, size, traced, n).blocks
    decreases n
  {
    hide Layout, AfterAllocation, AfterFree;
    var before := After(sched, size, traced, n - 1);
    var slot := Slot(sched, size, traced, i);
    if i == n - 1 {
      DefineAddsBlock(before, sched[i].v, size(sched[i].v));
    } else {
      AliveIsInUse(sched, size, traced, i, n - 1);
      var e := sched[n - 1];
      if traced(e.v) {
        match e
        case Define(v) => AllocationKeepsBlocks(before, v, size(v), slot);
        case Release(v) =>
          SlotHolds(sched, size, traced, i, n - 1);
          assert v != sched[i].v;
          FreeKeepsOthers(before, v, slot);
      }
    }
  }

  lemma DefineAddsBlock(st: PlannerState, index: nat, size: nat)
    requires Layout(st) && size > 0
    ensures |st.allocs| in AfterAllocation(st, index, size).blocks
  {
    BestFit(st, size);
    var s := SearchAfter(st, size, |st.blocks|);
    assert AfterAllocation(st, index, size).blocks[s.pos] == |st.allocs|;
  }

  lemma AllocationKeepsBlocks(st: PlannerState, index: nat, size: nat, b: nat)
    requires Layout(st) && b in st.blocks
    ensures b in AfterAllocation(st, index, size).blocks
  {
    if size > 0 {
      BestFit(st, size);
      var s := SearchAfter(st, size, |st.blocks|);
      var i :| 0 <= i < |st.blocks| && st.blocks[i] == b;
      assert AfterAllocation(st, index, size).blocks[if i < s.pos then i else i + 1] == b;
    }
  }

  lemma FreeKeepsOthers(st: PlannerState, index: nat, b: nat)
    requires Layout(st) && b in st.blocks && b < |st.allocs| && st.allocs[b].index != index
    ensures b in AfterFree(st, index).blocks
  {
    var p := FindBlock(st, index, 0);
    var i :| 0 <= i < |st.blocks| && st.blocks[i] == b;
    if p < |st.blocks| {
      assert AfterFree(st, index).blocks[if i < p then i else i - 1] == b;
    }
  }

  /** Byte ranges that have no byte in common. */
  predicate Disjoint(a: Block, b: Block) {
    End(a) <= b.offset || End(b) <= a.offset
  }

  ghost function FinalPattern(sched: seq<Event>, size: Sizes, traced: Traced): Pattern {
    var st := After(sched, size, traced, |sched|);
    Pattern(PatternOf(st.allocs), st.bufferSize)
  }

  lemma {:induction false} PatternLookup(allocs: seq<Alloc>, k: nat)
    requires k < |allocs| && forall i, j :: 0 <= i < j < |allocs| ==> allocs[i].index != allocs[j].index
    ensures PatternOf(allocs)[allocs[k].index] == allocs[k].block
  {
    var n := |allocs| - 1;
    if k < n {
      PatternLookup(allocs[..n], k);
      assert allocs[..n][k] == allocs[k];
    }
  }

  lemma PatternHolds(sched: seq<Event>, size: Sizes, traced: Traced, i: nat)
    requires DefinedOnce(sched) && i < |sched| && sched[i].Define? && traced(sched[i].v)
    ensures sched[i].v in FinalPattern(sched, size, traced).patterns
    ensures FinalPattern(sched, size, traced).patterns[sched[i].v] ==
            After(sched, size, traced, i + 1).allocs[Slot(sched, size, traced, i)].block
    ensures Slot(sched, size, traced, i) < |After(sched, size, traced, i + 1).allocs|
    ensures FinalPattern(sched, size, traced).patterns[sched[i].v].size == size(sched[i].v)
    ensures End(FinalPattern(sched, size, traced).patterns[sched[i].v]) <= FinalPattern(sched, size, traced).peakSize
  {
    var st := After(sched, size, traced, |sched|);
    SlotHolds(sched, size, traced, i, |sched|);
    SlotHolds(sched, size, traced, i, i + 1);
    AllocsGrow(sched, size, traced, i + 1, |sched|);
    forall j, k | 0 <= j < k < |st.allocs|
      ensures st.allocs[j].index != st.allocs[k].index
    {
      TracedOnce(sched, size, traced, |sched|, j, k);
    }
    PatternLookup(st.allocs, Slot(sched, size, traced, i));
  }

  /**
   Two nonempty values that are in use at the same time get disjoint byte ranges, both inside the
   chunk, whatever the schedule and the sizes.
   */
  lemma LiveTogetherDisjoint(sched: seq<Event>, size: Sizes, traced: Traced, i: nat, j: nat)
    requires DefinedOnce(sched) && i < j < |sched| && sched[i].Define? && sched[j].Define? && Alive(sched, i, j)
    requires traced(sched[i].v) && traced(sched[j].v) && size(sched[i].v) > 0 && size(sched[j].v) > 0
    ensures var p := FinalPattern(sched, size, traced);
            && sched[i].v in p.patterns && sched[j].v in p.patterns
            && Disjoint(p.patterns[sched[i].v], p.patterns[sched[j].v])
            && End(p.patterns[sched[i].v]) <= p.peakSize && End(p.patterns[sched[j].v]) <= p.peakSize
  {
    hide Layout, AfterAllocation, FinalPattern;
    PatternHolds(sched, size, traced, i);
    PatternHolds(sched, size, traced, j);
    var before := After(sched, size, traced, j);
    var st := After(sched, size, traced, j + 1);
    var a, b := Slot(sched, size, traced, i), Slot(sched, size, traced, j);
    AliveIsInUse(sched, size, traced, i, j);
    AllocsGrow(sched, size, traced, i + 1, j);
    assert before.allocs[a].block == FinalPattern(sched, size, traced).patterns[sched[i].v];
    NewBlockApart(before, sched[j].v, size(sched[j].v), a);
  }

  lemma NewBlockApart(st: PlannerState, index: nat, size: nat, a: nat)
    requires Layout(st) && size > 0 && a in st.blocks && a < |st.allocs|
    ensures Disjoint(st.allocs[a].block, AfterAllocation(st, index, size).allocs[|st.allocs|].block)
  {
    var k :| 0 <= k < |st.blocks| && st.blocks[k] == a;
    Fits(st, size, k);
  }

  // ----- the peak

  /** After every event the buffer ends where the block that reaches furthest ends. */
  lemma {:induction false} PeakIsLargestEnd(sched: seq<Event>, size: Sizes, traced: Traced, n: nat)
    requires n <= |sched|
    ensures var st := After(sched, size, traced, n); EndsAtLargest(st.allocs, st.bufferSize)
  {
    hide EndsAtLargest, Layout, AfterAllocation;
    if n == 0 {
      NothingTraced();
    } else {
      PeakIsLargestEnd(sched, size, traced, n - 1);
      var st, e := After(sched, size, traced, n - 1), sched[n - 1];
      LayoutRange(st);
      if traced(e.v) && e.Define? { AllocationEndsAtLargest(st, e.v, size(e.v)); }
    }
  }

  lemma NothingTraced()
    ensures EndsAtLargest([], 0)
  {
  }

  lemma LayoutRange(st: PlannerState)
    requires Layout(st)
    ensures InRange(st)
  {
  }

  lemma {:induction false} PatternFrom(allocs: seq<Alloc>, v: nat) returns (k: nat)
    requires v in PatternOf(allocs)
    ensures k < |allocs| && allocs[k] == Alloc(v, PatternOf(allocs)[v])
  {
    var n := |allocs| - 1;
    if allocs[n].index == v {
      k := n;
    } else {
      k := PatternFrom(allocs[..n], v);
    }
  }

  /** The pattern's peak is the largest end of any of its blocks. */
  lemma PatternPeak(sched: seq<Event>, size: Sizes, traced: Traced)
    requires DefinedOnce(sched)
    ensures var p := FinalPattern(sched, size, traced);
            && (forall v :: v in p.patterns ==> End(p.patterns[v]) <= p.peakSize)
            && (p.peakSize == 0 || exists v :: v in p.patterns && End(p.patterns[v]) == p.peakSize)
  {
    hide Layout;
    var p, st := FinalPattern(sched, size, traced), After(sched, size, traced, |sched|);
    PeakIsLargestEnd(sched, size, traced, |sched|);
    hide After;
    forall v | v in p.patterns
      ensures End(p.patterns[v]) <= p.peakSize
    {
      var k := PatternFrom(st.allocs, v);
    }
    if p.peakSize > 0 {
      var k :| 0 <= k < |st.allocs| && End(st.allocs[k].block) == st.bufferSize;
      forall i, j | 0 <= i < j < |st.allocs|
        ensures st.allocs[i].index != st.allocs[j].index
      {
        TracedOnce(sched, size, traced, |sched|, i, j);
      }
      PatternLookup(st.allocs, k);
    }
  }
}
