/** The sequential executor as a function: what it does with any plan and any kernels, safe or not. */
module ExecutorSpec {
  import opened Wrappers
  import opened GraphModel
  import opened PlanSafety
  import opened Kernels
  import opened SharedRun

  /** Slots and memory of an execution frame. */
  datatype Frame = Frame(values: seq<MLValue>, heap: Heap)

  /** A present argument can be read: its slot is filled and the buffer has not been freed. */
  predicate Readable(f: Frame, v: nat) {
    v < |f.values| && f.values[v].Allocated? && f.values[v].buf in f.heap
  }

  predicate AllReadable(f: Frame, args: seq<Option<nat>>) {
    forall i :: 0 <= i < |args| && args[i].Some? ==> Readable(f, args[i].value)
  }

  /** The buffers of the given arguments. */
  function BuffersOf(f: Frame, args: seq<Option<nat>>): (r: seq<Option<nat>>)
    requires AllReadable(f, args)
    ensures |r| == |args| && forall b :: Some(b) in r ==> b in f.heap
    ensures forall i :: 0 <= i < |args| ==>
              r[i] == if args[i].Some? then Some(f.values[args[i].value].buf) else None
  {
    seq(|args|, i requires 0 <= i < |args| => if args[i].Some? then Some(f.values[args[i].value].buf) else None)
  }

  // ----- memory for one output

  /** Value v gets storage of its own: it is no tensor, or the plan says so. */
  predicate OwnsStorage(g: Graph, alloc: seq<AllocPlan>, v: nat)
    requires v < |g.values| && v < |alloc|
  {
    !g.values[v].isTensor || alloc[v].kind.Allocate? || alloc[v].kind.AllocateOutput?
  }

  /** The buffer the plan tells v to reuse is there, belongs to a tensor and is as long as needed. */
  predicate CanReuse(g: Graph, alloc: seq<AllocPlan>, f: Frame, v: nat, size: nat)
    requires v < |alloc|
  {
    && alloc[v].kind.Reuse? && Readable(f, alloc[v].reused)
    && alloc[v].reused < |g.values| && g.values[alloc[v].reused].isTensor
    && |f.heap[f.values[alloc[v].reused].buf]| == size
  }

  /** A slot that is filled already has the length asked for. */
  predicate HasLength(f: Frame, v: nat, size: nat) {
    Readable(f, v) && |f.heap[f.values[v].buf]| == size
  }

  /** The frame after value v has been given memory for `size` elements; None when that fails. */
  function Allocation(g: Graph, alloc: seq<AllocPlan>, f: Frame, v: nat, size: nat): Option<Frame> {
    if v >= |f.values| || v >= |alloc| || v >= |g.values| then None
    else if f.values[v].Allocated? then if HasLength(f, v, size) then Some(f) else None
    else if OwnsStorage(g, alloc, v) then
      Some(Frame(f.values[v := Allocated(v)], f.heap[v := Zeros(size)]))
    else if CanReuse(g, alloc, f, v, size) then
      Some(f.(values := f.values[v := Allocated(f.values[alloc[v].reused].buf)]))
    else None
  }

  /**
   Memory granted has the length asked for.  A tensor without a slot gets it only if the plan has it allocated or lets
   it reuse a buffer, which it then shares with the value named, and no memory is touched.
   */
  lemma GrantedMemory(g: Graph, alloc: seq<AllocPlan>, f: Frame, v: nat, size: nat)
    requires v < |f.values| == |alloc| == |g.values| && Allocation(g, alloc, f, v, size).Some?
    ensures var f' := Allocation(g, alloc, f, v, size).value;
            && |f'.values| == |f.values| && f'.values[v].Allocated?
            && f'.values[v].buf in f'.heap && |f'.heap[f'.values[v].buf]| == size
            && (f.values[v].NotAllocated? && g.values[v].isTensor ==>
                  && alloc[v].kind in {Allocate, AllocateOutput, Reuse}
                  && (alloc[v].kind.Reuse? ==>
                        && alloc[v].reused < |f.values| && f'.values[v] == f.values[alloc[v].reused]
                        && f'.heap == f.heap))
  {
  }

  /** The frame after the first j outputs have been given memory. */
  function AllocateTo(g: Graph, alloc: seq<AllocPlan>, f: Frame, outputs: seq<Option<nat>>, outs: seq<Data>, j: nat)
    : Option<Frame>
    requires j <= |outputs| == |outs|
  {
    if j == 0 then Some(f)
    else
      var before := AllocateTo(g, alloc, f, outputs, outs, j - 1);
      if before.None? || outputs[j - 1].None? then before
      else Allocation(g, alloc, before.value, outputs[j - 1].value, |outs[j - 1]|)
  }

  // ----- one step

  function ReleaseOne(f: Frame, v: nat): Frame
    requires v < |f.values|
  {
    Frame(f.values[v := NotAllocated], f.heap - {v})
  }

  /** The frame after entries i to last of the list have been released. */
  function ReleaseRange(plan: Plan, f: Frame, i: int, last: int): Option<Frame>
    decreases last - i
  {
    if i > last then Some(f)
    else if !(0 <= i < |plan.toBeFreed|) || plan.toBeFreed[i] >= |f.values| then None
    else ReleaseRange(plan, ReleaseOne(f, plan.toBeFreed[i]), i + 1, last)
  }

  /** Value v stands in the list between positions i and last. */
  ghost predicate Names(plan: Plan, i: int, last: int, v: nat) {
    exists k :: i <= k <= last && 0 <= k < |plan.toBeFreed| && plan.toBeFreed[k] == v
  }

  /** Position k is one of the list, and names a slot. */
  ghost predicate NamesSlot(plan: Plan, k: int, slots: nat) {
    0 <= k < |plan.toBeFreed| && plan.toBeFreed[k] < slots
  }

  ghost predicate AllNamed(plan: Plan, i: int, last: int, slots: nat) {
    forall k :: i <= k <= last ==> NamesSlot(plan, k, slots)
  }

  /** Exactly the slots named, and the buffers allocated for them, are gone; all else is as it was. */
  ghost predicate GoneFrom(plan: Plan, f: Frame, i: int, last: int, f': Frame) {
    && |f'.values| == |f.values|
    && (forall v :: 0 <= v < |f.values| ==>
          f'.values[v] == if Names(plan, i, last, v) then NotAllocated else f.values[v])
    && (forall b :: b in f'.heap <==> b in f.heap && !Names(plan, i, last, b))
    && (forall b :: b in f'.heap ==> f'.heap[b] == f.heap[b])
  }

  lemma NamesMore(plan: Plan, i: int, last: int, slots: nat, v: nat)
    requires i <= last && 0 <= i < |plan.toBeFreed|
    ensures Names(plan, i, last, v) <==> plan.toBeFreed[i] == v || Names(plan, i + 1, last, v)
    ensures AllNamed(plan, i, last, slots) <==> plan.toBeFreed[i] < slots && AllNamed(plan, i + 1, last, slots)
  {
    assert plan.toBeFreed[i] < slots <==> NamesSlot(plan, i, slots);
  }

  lemma NothingGone(plan: Plan, f: Frame, i: int, last: int)
    requires i > last
    ensures GoneFrom(plan, f, i, last, f) && AllNamed(plan, i, last, |f.values|)
  {
  }

  lemma OneMoreGone(plan: Plan, f: Frame, i: int, last: int, f': Frame)
    requires i <= last && 0 <= i < |plan.toBeFreed| && plan.toBeFreed[i] < |f.values|
    requires GoneFrom(plan, ReleaseOne(f, plan.toBeFreed[i]), i + 1, last, f')
    ensures GoneFrom(plan, f, i, last, f')
  {
    forall v: nat
      ensures Names(plan, i, last, v) <==> plan.toBeFreed[i] == v || Names(plan, i + 1, last, v)
    {
      NamesMore(plan, i, last, |f.values|, v);
    }
    hide Names;
  }

  /** A range can be released exactly if all its entries name slots, and then exactly those are gone. */
  lemma {:induction false} ReleasedExactly(plan: Plan, f: Frame, i: int, last: int)
    ensures ReleaseRange(plan, f, i, last).Some? <==> AllNamed(plan, i, last, |f.values|)
    ensures ReleaseRange(plan, f, i, last).Some? ==>
              GoneFrom(plan, f, i, last, ReleaseRange(plan, f, i, last).value)
    decreases last - i
  {
    if i > last {
      NothingGone(plan, f, i, last);
    } else if 0 <= i < |plan.toBeFreed| && plan.toBeFreed[i] < |f.values| {
      NamesMore(plan, i, last, |f.values|, 0);
      ReleasedExactly(plan, ReleaseOne(f, plan.toBeFreed[i]), i + 1, last);
      hide GoneFrom, AllNamed;
      if ReleaseRange(plan, f, i, last).Some? {
        OneMoreGone(plan, f, i, last, ReleaseRange(plan, f, i, last).value);
      }
    } else {
      assert !NamesSlot(plan, i, |f.values|);
      hide GoneFrom;
    }
  }

  datatype StepResult = Ran(frame: Frame) | KernelFailed | Unusable

  /** Run the kernel over the buffers it was given, then release what the plan says. */
  function Finish(plan: Plan, ks: KernelSet, f: Frame, from: seq<Option<nat>>, outputs: seq<Option<nat>>, pc: nat)
    : StepResult
    requires pc < |plan.steps|
  {
    if !AllReadable(f, outputs) then Unusable
    else
      var heap := ks.run(pc, from, BuffersOf(f, outputs), f.heap);
      var left := ReleaseRange(plan, f.(heap := heap), plan.steps[pc].freeFrom, plan.steps[pc].freeTo);
      if left.None? then Unusable else Ran(left.value)
  }

  function StepFrame(g: Graph, plan: Plan, ks: KernelSet, f: Frame, pc: nat): StepResult
    requires pc < |g.nodes| == |plan.steps|
  {
    var node := g.nodes[pc];
    if !AllReadable(f, Reads(node)) then Unusable
    else
      var from := BuffersOf(f, Reads(node));
      var results := ks.compute(pc, Look(f.heap, from));
      if results.None? then KernelFailed
      else if |results.value| != |node.outputs| then Unusable
      else
        var ready := AllocateTo(g, plan.alloc, f, node.outputs, results.value, |node.outputs|);
        if ready.None? then Unusable else Finish(plan, ks, ready.value, from, node.outputs, pc)
  }

  /** After a step none of the values released by it has a slot or a buffer, and nothing else was emptied. */
  lemma StepReleases(g: Graph, plan: Plan, ks: KernelSet, f: Frame, pc: nat, v: nat)
    requires pc < |g.nodes| == |plan.steps| && StepFrame(g, plan, ks, f, pc).Ran?
    ensures var f', step := StepFrame(g, plan, ks, f, pc).frame, plan.steps[pc];
            && (Names(plan, step.freeFrom, step.freeTo, v) ==>
                  v < |f'.values| && f'.values[v].NotAllocated? && v !in f'.heap)
            && (!Names(plan, step.freeFrom, step.freeTo, v) && v < |f.values| == |f'.values| ==>
                  f.values[v].Allocated? ==> f'.values[v] == f.values[v])
  {
    hide AllReadable, Readable, ReleaseRange, Allocation, AllocateTo, Names, GoneFrom;
    var node, step := g.nodes[pc], plan.steps[pc];
    var outs := ks.compute(pc, Look(f.heap, BuffersOf(f, Reads(node)))).value;
    var ready := AllocateTo(g, plan.alloc, f, node.outputs, outs, |node.outputs|).value;
    AllocationKeeps(g, plan.alloc, f, node.outputs, outs, |node.outputs|, v);
    var ran := ready.(heap := ks.run(pc, BuffersOf(f, Reads(node)), BuffersOf(ready, node.outputs), ready.heap));
    ReleasedExactly(plan, ran, step.freeFrom, step.freeTo);
    GoneAt(plan, ran, step.freeFrom, step.freeTo, ReleaseRange(plan, ran, step.freeFrom, step.freeTo).value, v);
  }

  lemma GoneAt(plan: Plan, f: Frame, i: int, last: int, f': Frame, v: nat)
    requires GoneFrom(plan, f, i, last, f') && AllNamed(plan, i, last, |f.values|)
    ensures |f'.values| == |f.values|
    ensures Names(plan, i, last, v) ==> v < |f'.values| && f'.values[v].NotAllocated? && v !in f'.heap
    ensures !Names(plan, i, last, v) && v < |f.values| ==> f'.values[v] == f.values[v]
  {
    if k :| i <= k <= last && 0 <= k < |plan.toBeFreed| && plan.toBeFreed[k] == v {
      assert NamesSlot(plan, k, |f.values|);
    }
  }

  lemma {:induction false} AllocationKeeps(g: Graph, alloc: seq<AllocPlan>, f: Frame, outputs: seq<Option<nat>>,
                                           outs: seq<Data>, j: nat, v: nat)
    requires j <= |outputs| == |outs| && AllocateTo(g, alloc, f, outputs, outs, j).Some?
    ensures var f' := AllocateTo(g, alloc, f, outputs, outs, j).value;
            && |f'.values| == |f.values|
            && (v < |f.values| && f.values[v].Allocated? ==> f'.values[v] == f.values[v])
  {
    hide HasLength, OwnsStorage, CanReuse;
    if j > 0 {
      AllocationKeeps(g, alloc, f, outputs, outs, j - 1, v);
    }
  }

  // ----- the whole run

  /** What the caller gets at the end. */
  function Fetch(g: Graph, f: Frame): Outcome {
    if forall i :: 0 <= i < |g.outputs| ==> Readable(f, g.outputs[i])
    then Outputs(seq(|g.outputs|, i requires 0 <= i < |g.outputs| => f.heap[f.values[g.outputs[i]].buf]))
    else Broken
  }

  function RunFrom(g: Graph, plan: Plan, ks: KernelSet, f: Frame, pc: nat): Outcome
    requires pc <= |g.nodes| == |plan.steps|
    decreases |g.nodes| - pc
  {
    if pc == |g.nodes| then Fetch(g, f)
    else
      match StepFrame(g, plan, ks, f, pc)
      case Ran(next) => RunFrom(g, plan, ks, next, pc + 1)
      case KernelFailed => Failed(pc)
      case Unusable => Broken
  }

  /** Feeds, weights and outer values are there from the start. */
  function StartFrame(g: Graph, feeds: Env): Frame {
    Frame(seq(|g.values|, v requires 0 <= v < |g.values| => if v in feeds then Allocated(v) else NotAllocated), feeds)
  }

  function RunPlan(g: Graph, plan: Plan, ks: KernelSet, feeds: Env): Outcome
    requires |plan.steps| == |g.nodes|
  {
    RunFrom(g, plan, ks, StartFrame(g, feeds), 0)
  }
}
