/** The execution frame and the sequential executor, which trusts the plan blindly. */
module SequentialExecutor {
  import opened Wrappers
  import opened GraphModel
  import opened PlanSafety
  import opened Kernels
  import opened SharedRun
  import opened ExecutorSpec
  import opened SafeRun

  class ExecutionFrame {
    var values: seq<MLValue>
    var heap: Heap

    ghost function State(): Frame
      reads this
    {
      Frame(values, heap)
    }

    constructor (g: Graph, feeds: Env)
      ensures State() == StartFrame(g, feeds)
    {
      values := seq(|g.values|, v => if v in feeds then Allocated(v) else NotAllocated);
      heap := feeds;
    }

    /** Buffers of the given arguments, or None when one of them is missing from memory. */
    method Buffers(args: seq<Option<nat>>) returns (r: Option<seq<Option<nat>>>)
      ensures r.Some? <==> AllReadable(State(), args)
      ensures r.Some? ==> r.value == BuffersOf(State(), args)
    {
      var bufs := [];
      for i := 0 to |args|
        invariant |bufs| == i
        invariant forall k :: 0 <= k < i && args[k].Some? ==> Readable(State(), args[k].value)
        invariant forall k :: 0 <= k < i ==>
                    bufs[k] == if args[k].Some? then Some(values[args[k].value].buf) else None
      {
        if args[i].None? {
          bufs := bufs + [None];
        } else {
          var v := args[i].value;
          if v >= |values| || values[v].NotAllocated? || values[v].buf !in heap {
            return None;
          }
          bufs := bufs + [Some(values[v].buf)];
        }
      }
      return Some(bufs);
    }

    /**
     Gives value v memory as its allocation plan says.  A filled slot only has its length verified; a value with
     storage of its own gets a new zeroed buffer under its own name; a value that reuses a buffer shares it with the
     reused value, contents included.  Nothing changes when that is not possible.
     */
    method AllocateAsPerAllocationPlan(g: Graph, alloc: seq<AllocPlan>, v: nat, size: nat) returns (ok: bool)
      requires |values| == |g.values| == |alloc|
      modifies this
      ensures |values| == |old(values)| && forall w :: 0 <= w < |values| && w != v ==> values[w] == old(values)[w]
      ensures ok ==> v < |values| && HasLength(State(), v, size)
      ensures !ok ==> State() == old(State())
      ensures v < |values| && old(values)[v].Allocated? ==>
                State() == old(State()) && (ok <==> HasLength(old(State()), v, size))
      ensures v < |values| && old(values)[v].NotAllocated? && OwnsStorage(g, alloc, v) ==>
                && ok && values[v] == Allocated(v) && v in heap && heap[v] == Zeros(size)
                && heap.Keys == old(heap).Keys + {v} && forall b :: b in old(heap) && b != v ==> heap[b] == old(heap)[b]
      ensures v < |values| && old(values)[v].NotAllocated? && !OwnsStorage(g, alloc, v) ==>
                && heap == old(heap) && (ok <==> CanReuse(g, alloc, old(State()), v, size))
                && (ok ==> values[v] == old(values)[alloc[v].reused])
    {
      ok := false;
      if v >= |values| {
        return;
      }
      if values[v].Allocated? {
        ok := values[v].buf in heap && |heap[values[v].buf]| == size;
      } else if !g.values[v].isTensor {
        AllocateOwn(v, size);
        ok := true;
      } else {
        match alloc[v].kind {
          case Allocate =>
            AllocateOwn(v, size);
            ok := true;
          case AllocateOutput =>
            AllocateOwn(v, size);
            ok := true;
          case Reuse =>
            ok := ShareWith(g, v, alloc[v].reused, size);
          case AllocateStatically =>
          case PreExisting =>
        }
      }
    }

    /** A new buffer, named after the value. */
    method AllocateOwn(v: nat, size: nat)
      requires v < |values|
      modifies this
      ensures values == old(values)[v := Allocated(v)] && heap == old(heap)[v := Zeros(size)]
    {
      values := values[v := Allocated(v)];
      heap := heap[v := Zeros(size)];
    }

    /** The slot of v is pointed at the buffer of a tensor that is there; its length is not negotiable. */
    method ShareWith(g: Graph, v: nat, reused: nat, size: nat) returns (ok: bool)
      requires v < |values| == |g.values|
      modifies this`values
      ensures ok <==> HasLength(old(State()), reused, size) && g.values[reused].isTensor
      ensures ok ==> values == old(values)[v := old(values)[reused]]
      ensures !ok ==> values == old(values)
    {
      ok := false;
      if reused < |values| && values[reused].Allocated? && g.values[reused].isTensor {
        if values[reused].buf in heap && |heap[values[reused].buf]| == size {
          values := values[v := Allocated(values[reused].buf)];
          ok := true;
        }
      }
    }

    /** Empties a slot; the buffer allocated for the value goes with it. */
    method ReleaseMLValue(v: nat) returns (ok: bool)
      modifies this
      ensures ok <==> v < |old(values)|
      ensures ok ==> values == old(values)[v := NotAllocated] && heap == old(heap) - {v}
      ensures !ok ==> values == old(values) && heap == old(heap)
    {
      ok := v < |values|;
      if ok {
        values := values[v := NotAllocated];
        heap := heap - {v};
      }
    }
  }

  /** The cases of an allocation are exhaustive: they fix the frame afterwards. */
  lemma AllocationIs(g: Graph, alloc: seq<AllocPlan>, f: Frame, f': Frame, v: nat, size: nat, ok: bool)
    requires |f.values| == |f'.values| == |g.values| == |alloc|
    requires ok ==> v < |f.values|
    requires v < |f.values| ==> forall w :: 0 <= w < |f.values| && w != v ==> f'.values[w] == f.values[w]
    requires v < |f.values| && f.values[v].Allocated? ==> f' == f && (ok <==> HasLength(f, v, size))
    requires v < |f.values| && f.values[v].NotAllocated? && OwnsStorage(g, alloc, v) ==>
               && ok && f'.values[v] == Allocated(v) && v in f'.heap && f'.heap[v] == Zeros(size)
               && f'.heap.Keys == f.heap.Keys + {v} && forall b :: b in f.heap && b != v ==> f'.heap[b] == f.heap[b]
    requires v < |f.values| && f.values[v].NotAllocated? && !OwnsStorage(g, alloc, v) ==>
               && f'.heap == f.heap && (ok <==> CanReuse(g, alloc, f, v, size))
               && (ok ==> f'.values[v] == f.values[alloc[v].reused])
    ensures Allocation(g, alloc, f, v, size) == if ok then Some(f') else None
  {
    if ok && f.values[v].NotAllocated? {
      if OwnsStorage(g, alloc, v) {
        assert f'.heap == f.heap[v := Zeros(size)];
        assert f'.values == f.values[v := Allocated(v)];
      } else {
        assert f'.values == f.values[v := f.values[alloc[v].reused]];
      }
    }
  }

  /** What the kernel of a step asks the frame for, one output after the other. */
  method AllocateOutputs(frame: ExecutionFrame, g: Graph, plan: Plan, outputs: seq<Option<nat>>, outs: seq<Data>)
    returns (ok: bool)
    requires |outputs| == |outs| && |frame.values| == |g.values| == |plan.alloc|
    modifies frame
    ensures |frame.values| == |g.values|
    ensures var a := AllocateTo(g, plan.alloc, old(frame.State()), outputs, outs, |outs|);
            (ok <==> a.Some?) && (ok ==> frame.State() == a.value)
  {
    hide Allocation, OwnsStorage, CanReuse, HasLength;
    for j := 0 to |outputs|
      invariant |frame.values| == |g.values|
      invariant AllocateTo(g, plan.alloc, old(frame.State()), outputs, outs, j) == Some(frame.State())
    {
      if outputs[j].Some? {
        ghost var before := frame.State();
        var granted := frame.AllocateAsPerAllocationPlan(g, plan.alloc, outputs[j].value, |outs[j]|);
        AllocationIs(g, plan.alloc, before, frame.State(), outputs[j].value, |outs[j]|, granted);
        if !granted {
          AllocateStuck(g, plan.alloc, old(frame.State()), outputs, outs, j + 1, |outs|);
          return false;
        }
      }
    }
    ok := true;
  }

  /** An output that cannot be granted is never made up for. */
  lemma {:induction false} AllocateStuck(g: Graph, alloc: seq<AllocPlan>, f: Frame, outputs: seq<Option<nat>>,
                                         outs: seq<Data>, j: nat, n: nat)
    requires j <= n <= |outputs| == |outs| && AllocateTo(g, alloc, f, outputs, outs, j).None?
    ensures AllocateTo(g, alloc, f, outputs, outs, n).None?
  {
    if j < n { AllocateStuck(g, alloc, f, outputs, outs, j, n - 1); }
  }

  /** Releases the range of step pc. */
  method ReleaseNodeMLValues(frame: ExecutionFrame, plan: Plan, pc: nat) returns (ok: bool)
    requires pc < |plan.steps|
    modifies frame
    ensures |frame.values| == |old(frame.values)|
    ensures var left := ReleaseRange(plan, old(frame.State()), plan.steps[pc].freeFrom, plan.steps[pc].freeTo);
            (ok <==> left.Some?) && (ok ==> frame.State() == left.value)
    ensures ok ==>
              GoneFrom(plan, old(frame.State()), plan.steps[pc].freeFrom, plan.steps[pc].freeTo, frame.State())
  {
    ReleasedExactly(plan, frame.State(), plan.steps[pc].freeFrom, plan.steps[pc].freeTo);
    hide GoneFrom, AllNamed;
    var i, last := plan.steps[pc].freeFrom, plan.steps[pc].freeTo;
    ok := true;
    while i <= last
      invariant ok && |frame.values| == |old(frame.values)|
      invariant ReleaseRange(plan, frame.State(), i, last) ==
                ReleaseRange(plan, old(frame.State()), plan.steps[pc].freeFrom, last)
    {
      if i < 0 || i >= |plan.toBeFreed| {
        return false;
      }
      ok := frame.ReleaseMLValue(plan.toBeFreed[i]);
      if !ok { return; }
      i := i + 1;
    }
  }

  datatype StepStatus = Ok | Failing | Stuck

  /** One node: read the inputs, allocate the outputs, run the kernel, release what is dead. */
  method RunStep(frame: ExecutionFrame, g: Graph, plan: Plan, ks: KernelSet, pc: nat) returns (status: StepStatus)
    requires pc < |g.nodes| == |plan.steps| && |frame.values| == |g.values| == |plan.alloc|
    modifies frame
    ensures |frame.values| == |g.values|
    ensures var r := StepFrame(g, plan, ks, old(frame.State()), pc);
            && (status.Ok? <==> r.Ran?) && (status.Ok? ==> frame.State() == r.frame)
            && (status.Failing? <==> r.KernelFailed?)
  {
    hide AllReadable, AllocateTo, ReleaseRange;
    var node := g.nodes[pc];
    var from := frame.Buffers(Reads(node));
    if from.None? { return Stuck; }
    var results := ks.compute(pc, Look(frame.heap, from.value));
    if results.None? { return Failing; }
    if |results.value| != |node.outputs| { return Stuck; }
    var ok := AllocateOutputs(frame, g, plan, node.outputs, results.value);
    if !ok { return Stuck; }
    var to := frame.Buffers(node.outputs);
    if to.None? { return Stuck; }
    frame.heap := ks.run(pc, from.value, to.value, frame.heap);
    ok := ReleaseNodeMLValues(frame, plan, pc);
    status := if ok then Ok else Stuck;
  }

  /** Hands the graph outputs to the caller. */
  method FetchOutputs(frame: ExecutionFrame, g: Graph) returns (outcome: Outcome)
    ensures outcome == Fetch(g, frame.State())
  {
    var data := [];
    for i := 0 to |g.outputs|
      invariant |data| == i
      invariant forall k :: 0 <= k < i ==>
                  Readable(frame.State(), g.outputs[k]) && data[k] == frame.heap[frame.values[g.outputs[k]].buf]
    {
      var v := g.outputs[i];
      if v >= |frame.values| || frame.values[v].NotAllocated? || frame.values[v].buf !in frame.heap {
        return Broken;
      }
      data := data + [frame.heap[frame.values[v].buf]];
    }
    outcome := Outputs(data);
  }

  /**
   Runs any plan over shared buffers.  When the plan is safe and the kernels honour their declarations, the outcome is
   the one of the run in which every value has a buffer of its own.
   */
  method Execute(g: Graph, plan: Plan, ks: KernelSet, feeds: Env) returns (outcome: Outcome)
    requires |plan.steps| == |g.nodes| && |plan.alloc| == |g.values|
    ensures outcome == RunPlan(g, plan, ks, feeds)
    ensures
      WellFormed(g) && SafePlan(g, plan) && Honours(g, ks) && EnvAt(g, feeds, 0) && RunShapesSound(g, ks, feeds, 0) ==>
        outcome == ReferenceRun(g, ks, feeds, 0)
  {
    hide WellFormed, SafePlan, Honours, EnvAt, RunShapesSound, ReferenceRun, StepFrame, Fetch;
    if WellFormed(g) && SafePlan(g, plan) && Honours(g, ks) && EnvAt(g, feeds, 0) && RunShapesSound(g, ks, feeds, 0) {
      SafeRunIsReference(g, plan, ks, feeds);
    }
    var frame := new ExecutionFrame(g, feeds);
    for pc := 0 to |plan.steps|
      invariant |frame.values| == |g.values|
      invariant RunFrom(g, plan, ks, frame.State(), pc) == RunPlan(g, plan, ks, feeds)
    {
      var status := RunStep(frame, g, plan, ks, pc);
      match status {
        case Ok =>
        case Failing => return Failed(pc);
        case Stuck => return Broken;
      }
    }
    outcome := FetchOutputs(frame, g);
  }
}
