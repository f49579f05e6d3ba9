/**
 The memory pattern planner: offsets inside one big chunk, assigned best fit while the
 allocations and frees of a run are traced.
 */
module MemPattern {
  import opened Wrappers

  datatype Block = Block(offset: nat, size: nat)

  /** Traced allocation: the value and where it was put. */
  datatype Alloc = Alloc(index: nat, block: Block)

  /** `blocks` are positions in `allocs` of the blocks now in use, in order of offset. */
  datatype PlannerState = PlannerState(allocs: seq<Alloc>, blocks: seq<nat>, bufferSize: nat)

  datatype Pattern = Pattern(patterns: map<nat, Block>, peakSize: nat)

  const EMPTY: PlannerState := PlannerState([], [], 0)

  ghost predicate InRange(st: PlannerState) {
    forall i :: 0 <= i < |st.blocks| ==> st.blocks[i] < |st.allocs|
  }

  function At(st: PlannerState, i: nat): Block
    requires i < |st.blocks| && st.blocks[i] < |st.allocs|
  {
    st.allocs[st.blocks[i]].block
  }

  function End(b: Block): nat {
    b.offset + b.size
  }

  /** The search as it stands after some blocks have been looked at. */
  datatype Search = Search(current: nat, waste: Option<nat>, pos: nat, offset: nat)

  /** Looks at the gap in front of one more block. */
  function Look(s: Search, b: Block, i: nat, size: nat): Search {
    if b.offset >= s.current && b.offset - s.current >= size
       && (s.waste.None? || b.offset - s.current - size < s.waste.value)
    then Search(End(b), Some(b.offset - s.current - size), i, s.current)
    else s.(current := End(b))
  }

  /** The search after the first k blocks; without a fitting gap the block goes to the end. */
  function SearchAfter(st: PlannerState, size: nat, k: nat): Search
    requires k <= |st.blocks| && forall i :: 0 <= i < |st.blocks| ==> st.blocks[i] < |st.allocs|
  {
    if k == 0 then Search(0, None, |st.blocks|, if st.blocks == [] then 0 else End(At(st, |st.blocks| - 1)))
    else Look(SearchAfter(st, size, k - 1), At(st, k - 1), k - 1, size)
  }

  function AfterAllocation(st: PlannerState, index: nat, size: nat): PlannerState
    requires forall i :: 0 <= i < |st.blocks| ==> st.blocks[i] < |st.allocs|
  {
    if size == 0 then st.(allocs := st.allocs + [Alloc(index, Block(0, 0))])
    else
      var s := SearchAfter(st, size, |st.blocks|);
      PlannerState(st.allocs + [Alloc(index, Block(s.offset, size))],
                   st.blocks[..Min(s.pos, |st.blocks|)] + [|st.allocs|] + st.blocks[Min(s.pos, |st.blocks|)..],
                   Max(st.bufferSize, s.offset + size))
  }

  function Min(a: nat, b: nat): nat { if a <= b then a else b }
  function Max(a: nat, b: nat): nat { if a >= b then a else b }

  /** Position of the first block of value `index`, or the number of blocks. */
  function FindBlock(st: PlannerState, index: nat, i: nat): (r: nat)
    requires i <= |st.blocks| && forall k :: 0 <= k < |st.blocks| ==> st.blocks[k] < |st.allocs|
    ensures i <= r <= |st.blocks|
    ensures r < |st.blocks| ==> st.allocs[st.blocks[r]].index == index
    ensures forall k :: i <= k < r ==> st.allocs[st.blocks[k]].index != index
    decreases |st.blocks| - i
  {
    if i == |st.blocks| || st.allocs[st.blocks[i]].index == index then i else FindBlock(st, index, i + 1)
  }

  function AfterFree(st: PlannerState, index: nat): PlannerState
    requires forall k :: 0 <= k < |st.blocks| ==> st.blocks[k] < |st.allocs|
  {
    var i := FindBlock(st, index, 0);
    if i < |st.blocks| then st.(blocks := st.blocks[..i] + st.blocks[i + 1..]) else st
  }

  /** The buffer ends where the block that reaches furthest, of all ever traced, ends. */
  ghost predicate EndsAtLargest(allocs: seq<Alloc>, bufferSize: nat) {
    && (forall k :: 0 <= k < |allocs| ==> End(allocs[k].block) <= bufferSize)
    && (bufferSize == 0 || exists k :: 0 <= k < |allocs| && End(allocs[k].block) == bufferSize)
  }

  lemma AllocationEndsAtLargest(st: PlannerState, index: nat, size: nat)
    requires InRange(st) && EndsAtLargest(st.allocs, st.bufferSize)
    ensures EndsAtLargest(AfterAllocation(st, index, size).allocs, AfterAllocation(st, index, size).bufferSize)
  {
    hide SearchAfter;
    var n, st' := |st.allocs|, AfterAllocation(st, index, size);
    assert st'.allocs[..n] == st.allocs && |st'.allocs| == n + 1;
    assert forall k :: 0 <= k < n ==> st'.allocs[k] == st.allocs[k];
    if st'.bufferSize == st.bufferSize > 0 {
      var k :| 0 <= k < n && End(st.allocs[k].block) == st.bufferSize;
      assert End(st'.allocs[k].block) == st'.bufferSize;
    } else if st'.bufferSize > 0 {
      assert End(st'.allocs[n].block) == st'.bufferSize;
    }
  }

  /** The pattern: where each traced value was put; a later trace of the same value wins. */
  function PatternOf(allocs: seq<Alloc>): (m: map<nat, Block>)
    ensures forall i :: 0 <= i < |allocs| ==> allocs[i].index in m
  {
    if allocs == [] then map[]
    else PatternOf(allocs[..|allocs| - 1])[allocs[|allocs| - 1].index := allocs[|allocs| - 1].block]
  }

  /** The planner as the execution frame drives it. */
  class MemPatternPlanner {
    var allocs: seq<Alloc>
    var blocks: seq<nat>
    var bufferSize: nat

    constructor ()
      ensures State() == EMPTY
    {
      allocs, blocks, bufferSize := [], [], 0;
    }

    function State(): PlannerState
      reads this
    {
      PlannerState(allocs, blocks, bufferSize)
    }

    method TraceAllocation(index: nat, size: nat)
      requires InRange(State())
      modifies this
      ensures State() == AfterAllocation(old(State()), index, size) && InRange(State())
      ensures old(EndsAtLargest(allocs, bufferSize)) ==> EndsAtLargest(allocs, bufferSize)
    {
      if EndsAtLargest(allocs, bufferSize) { AllocationEndsAtLargest(State(), index, size); }
      hide EndsAtLargest;
      if size == 0 {
        allocs := allocs + [Alloc(index, Block(0, 0))];
        return;
      }
      var current: nat, bestOffset: nat := 0, 0;
      var waste: Option<nat> := None;
      if blocks != [] {
        var last := allocs[blocks[|blocks| - 1]].block;
        bestOffset := last.offset + last.size;
      }
      var bestFit: nat := |blocks|;
      for i := 0 to |blocks|
        invariant Search(current, waste, bestFit, bestOffset) == SearchAfter(State(), size, i)
        invariant bestFit <= |blocks|
      {
        var b := allocs[blocks[i]].block;
        if b.offset >= current {
          var gap := b.offset - current;
          if gap >= size && (waste.None? || gap - size < waste.value) {
            bestFit, waste, bestOffset := i, Some(gap - size), current;
          }
        }
        current := b.offset + b.size;
      }
      allocs := allocs + [Alloc(index, Block(bestOffset, size))];
      bufferSize := Max(bufferSize, bestOffset + size);
      blocks := blocks[..bestFit] + [|allocs| - 1] + blocks[bestFit..];
    }

    method TraceFree(index: nat)
      requires InRange(State())
      modifies this
      ensures State() == AfterFree(old(State()), index) && InRange(State())
      ensures allocs == old(allocs) && bufferSize == old(bufferSize)
    {
      for i := 0 to |blocks|
        invariant blocks == old(blocks) && allocs == old(allocs) && bufferSize == old(bufferSize)
        invariant FindBlock(State(), index, 0) == FindBlock(State(), index, i)
      {
        if allocs[blocks[i]].index == index {
          blocks := blocks[..i] + blocks[i + 1..];
          return;
        }
      }
    }

    method GenerateMemPattern() returns (p: Pattern)
      ensures p == Pattern(PatternOf(allocs), bufferSize)
    {
      var m := map[];
      for i := 0 to |allocs|
        invariant m == PatternOf(allocs[..i])
      {
        assert allocs[..i + 1][..i] == allocs[..i];
        m := m[allocs[i].index := allocs[i].block];
      }
      assert allocs[..|allocs|] == allocs;
      p := Pattern(m, bufferSize);
    }
  }
}
