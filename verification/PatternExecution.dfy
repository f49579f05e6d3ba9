/**
 The trace of a run and the run itself: after every step the blocks that the pattern planner has in use are those of
 the buffers that the execution frame holds.
 */
module PatternExecution {
  import opened Wrappers
  import opened GraphModel
  import opened PlanSafety
  import opened Kernels
  import opened SharedRun
  import opened ExecutorSpec
  import MemPattern
  import opened MemPatternTheorems
  import opened MemPatternBounds
  import opened PatternCache
  import opened PatternLifetimes

  /** The frame after the first n steps, unless one of them failed. */
  function FrameAfter(g: Graph, plan: Plan, ks: KernelSet, feeds: Env, n: nat): Option<Frame>
    requires n <= |g.nodes| == |plan.steps|
  {
    if n == 0 then Some(StartFrame(g, feeds))
    else
      var before := FrameAfter(g, plan, ks, feeds, n - 1);
      if before.None? then None
      else
        match StepFrame(g, plan, ks, before.value, n - 1)
        case Ran(f) => Some(f)
        case _ => None
  }

  /** Kernels neither allocate nor free buffers. */
  ghost predicate KeepsBuffers(ks: KernelSet) {
    forall n: nat, from, to, heap :: ks.run(n, from, to, heap).Keys == heap.Keys
  }

  /** The plan gives v a buffer that the run allocates. */
  ghost predicate Allocates(g: Graph, plan: Plan, v: nat) {
    v < |plan.alloc| == |g.values| && plan.alloc[v].kind.Allocate?
  }

  // ----- the frame, step by step

  /** Given memory one after the other, a value that is allocated has a buffer once its turn has come. */
  lemma {:induction false} AllocatedInTurn(g: Graph, plan: Plan, f: Frame, outputs: seq<Option<nat>>, outs: seq<Data>,
                                           j: nat, v: nat)
    requires j <= |outputs| == |outs| && AllocateTo(g, plan.alloc, f, outputs, outs, j).Some?
    requires Allocates(g, plan, v) && |f.values| == |g.values| && f.values[v].NotAllocated?
    ensures var f' := AllocateTo(g, plan.alloc, f, outputs, outs, j).value;
            && |f'.values| == |g.values|
            && (v in f'.heap <==> v in f.heap || Some(v) in outputs[..j])
            && (Some(v) !in outputs[..j] ==> f'.values[v].NotAllocated?)
  {
    if j > 0 {
      AllocatedInTurn(g, plan, f, outputs, outs, j - 1, v);
      assert outputs[..j] == outputs[..j - 1] + [outputs[j - 1]];
      hide HasLength, CanReuse;
    }
  }

  /** A value that has a slot already keeps it, and so does its buffer, or the lack of it. */
  lemma {:induction false} OthersUntouched(g: Graph, alloc: seq<AllocPlan>, f: Frame, outputs: seq<Option<nat>>,
                                           outs: seq<Data>, j: nat, v: nat)
    requires j <= |outputs| == |outs| && AllocateTo(g, alloc, f, outputs, outs, j).Some?
    requires Some(v) !in outputs
    ensures var f' := AllocateTo(g, alloc, f, outputs, outs, j).value;
            |f'.values| == |f.values| && (v in f'.heap <==> v in f.heap)
  {
    if j > 0 {
      OthersUntouched(g, alloc, f, outputs, outs, j - 1, v);
      assert outputs[j - 1] in outputs;
      hide HasLength, CanReuse, OwnsStorage;
    }
  }

  /** What a step leaves in memory of a value that is allocated. */
  lemma StepHolds(g: Graph, plan: Plan, ks: KernelSet, f: Frame, pc: nat, v: nat)
    requires pc < |g.nodes| == |plan.steps| && StepFrame(g, plan, ks, f, pc).Ran? && KeepsBuffers(ks)
    requires Allocates(g, plan, v) && |f.values| == |g.values|
    requires Some(v) in g.nodes[pc].outputs ==> f.values[v].NotAllocated?
    ensures var f' := StepFrame(g, plan, ks, f, pc).frame;
            && |f'.values| == |g.values|
            && (v in f'.heap <==> (v in f.heap || Some(v) in g.nodes[pc].outputs) && v !in Freed(plan, pc))
            && (f.values[v].NotAllocated? && Some(v) !in g.nodes[pc].outputs ==> f'.values[v].NotAllocated?)
  {
    hide AllReadable, Readable, ReleaseRange, Allocation, AllocateTo, Names, GoneFrom, AllNamed;
    var node, step := g.nodes[pc], plan.steps[pc];
    var outs := ks.compute(pc, Look(f.heap, BuffersOf(f, Reads(node)))).value;
    var ready := AllocateTo(g, plan.alloc, f, node.outputs, outs, |node.outputs|).value;
    assert node.outputs[..|node.outputs|] == node.outputs;
    if f.values[v].NotAllocated? {
      AllocatedInTurn(g, plan, f, node.outputs, outs, |node.outputs|, v);
    } else {
      OthersUntouched(g, plan.alloc, f, node.outputs, outs, |node.outputs|, v);
    }
    var ran := ready.(heap := ks.run(pc, BuffersOf(f, Reads(node)), BuffersOf(ready, node.outputs), ready.heap));
    ReleasedExactly(plan, ran, step.freeFrom, step.freeTo);
    GoneIs(plan, ran, step.freeFrom, step.freeTo, StepFrame(g, plan, ks, f, pc).frame, v);
    NamesFreed(plan, pc, |ran.values|, v);
  }

  lemma GoneIs(plan: Plan, f: Frame, i: int, last: int, f': Frame, v: nat)
    requires GoneFrom(plan, f, i, last, f')
    ensures |f'.values| == |f.values| && (v in f'.heap <==> v in f.heap && !Names(plan, i, last, v))
    ensures v < |f.values| && f.values[v].NotAllocated? ==> f'.values[v].NotAllocated?
  {
    hide Names;
  }

  /** The events of a step release exactly what the executor releases after it. */
  lemma NamesFreed(plan: Plan, pc: nat, slots: nat, v: nat)
    requires pc < |plan.steps| && AllNamed(plan, plan.steps[pc].freeFrom, plan.steps[pc].freeTo, slots)
    ensures Names(plan, plan.steps[pc].freeFrom, plan.steps[pc].freeTo, v) <==> v in Freed(plan, pc)
  {
    var i, last := plan.steps[pc].freeFrom, plan.steps[pc].freeTo;
    if i <= last {
      assert NamesSlot(plan, i, slots) && NamesSlot(plan, last, slots);
      if k :| i <= k <= last && 0 <= k < |plan.toBeFreed| && plan.toBeFreed[k] == v {
        assert Freed(plan, pc)[k - i] == v;
      }
      if k :| 0 <= k < |Freed(plan, pc)| && Freed(plan, pc)[k] == v {
        assert plan.toBeFreed[i + k] == v;
      }
    }
  }

  // ----- the events, step by step

  lemma {:induction false} LiveOfPrefix(a: seq<Event>, b: seq<Event>, traced: Traced, n: nat)
    requires n <= |a|
    ensures Live(a + b, traced, n) == Live(a, traced, n)
  {
    if n > 0 { LiveOfPrefix(a, b, traced, n - 1); }
  }

  lemma {:induction false} LiveAfterDefines(a: seq<Event>, vs: seq<nat>, traced: Traced, n: nat, v: nat)
    requires n <= |vs| && traced(v)
    ensures v in Live(a + Defines(vs), traced, |a| + n) <==> v in Live(a, traced, |a|) || v in vs[..n]
  {
    if n == 0 {
      LiveOfPrefix(a, Defines(vs), traced, |a|);
    } else {
      LiveAfterDefines(a, vs, traced, n - 1, v);
      assert vs[..n] == vs[..n - 1] + [vs[n - 1]];
      assert (a + Defines(vs))[|a| + n - 1] == Define(vs[n - 1]);
    }
  }

  lemma {:induction false} LiveAfterReleases(a: seq<Event>, vs: seq<nat>, traced: Traced, n: nat, v: nat)
    requires n <= |vs| && traced(v)
    ensures v in Live(a + Releases(vs), traced, |a| + n) <==> v in Live(a, traced, |a|) && v !in vs[..n]
  {
    if n == 0 {
      LiveOfPrefix(a, Releases(vs), traced, |a|);
    } else {
      LiveAfterReleases(a, vs, traced, n - 1, v);
      assert vs[..n] == vs[..n - 1] + [vs[n - 1]];
      assert (a + Releases(vs))[|a| + n - 1] == Release(vs[n - 1]);
    }
  }

  /** What is in use after the events of the first n steps. */
  ghost function LiveAfter(g: Graph, plan: Plan, traced: Traced, n: nat): set<nat>
    requires n <= |g.nodes|
  {
    Live(Schedule(g, plan, n), traced, |Schedule(g, plan, n)|)
  }

  lemma LiveStep(g: Graph, plan: Plan, traced: Traced, pc: nat, v: nat)
    requires pc < |g.nodes| && traced(v)
    ensures v in LiveAfter(g, plan, traced, pc + 1) <==>
              (v in LiveAfter(g, plan, traced, pc) || v in Existing(g.nodes[pc].outputs)) && v !in Freed(plan, pc)
  {
    hide Live, Schedule, Existing, Freed;
    var a, outputs, freed := Schedule(g, plan, pc), Existing(g.nodes[pc].outputs), Freed(plan, pc);
    var b := a + Defines(outputs);
    ScheduleStep(g, plan, pc);
    assert Schedule(g, plan, pc + 1) == b + Releases(freed);
    LiveAfterDefines(a, outputs, traced, |outputs|, v);
    LiveAfterReleases(b, freed, traced, |freed|, v);
    assert outputs[..|outputs|] == outputs && freed[..|freed|] == freed;
  }

  // ----- the two together

  /** Nothing that is still to be computed has a slot. */
  ghost predicate NothingEarly(g: Graph, f: Frame, n: nat)
    requires n <= |g.nodes|
  {
    |f.values| == |g.values| && forall v :: 0 <= v < |f.values| && v !in Defined(g, n) ==> f.values[v].NotAllocated?
  }

  lemma NotDefinedYet(g: Graph, pc: nat, v: nat)
    requires WellFormed(g) && pc < |g.nodes|
    ensures Some(v) in g.nodes[pc].outputs <==> v in Existing(g.nodes[pc].outputs)
    ensures Some(v) in g.nodes[pc].outputs ==> v !in Defined(g, pc)
    ensures v !in Defined(g, pc + 1) ==> v !in Defined(g, pc) && Some(v) !in g.nodes[pc].outputs
  {
    assert NodeOk(g, pc);
  }

  /** A step keeps it so. */
  lemma StepNotEarly(g: Graph, plan: Plan, ks: KernelSet, f: Frame, pc: nat)
    requires WellFormed(g) && pc < |g.nodes| == |plan.steps| && StepFrame(g, plan, ks, f, pc).Ran?
    requires NothingEarly(g, f, pc)
    ensures NothingEarly(g, StepFrame(g, plan, ks, f, pc).frame, pc + 1)
  {
    hide WellFormed, AllReadable, Readable, ReleaseRange, Allocation, AllocateTo, Names, GoneFrom, AllNamed, Defined;
    var node, step, f' := g.nodes[pc], plan.steps[pc], StepFrame(g, plan, ks, f, pc).frame;
    var outs := ks.compute(pc, Look(f.heap, BuffersOf(f, Reads(node)))).value;
    var ready := AllocateTo(g, plan.alloc, f, node.outputs, outs, |node.outputs|).value;
    var ran := ready.(heap := ks.run(pc, BuffersOf(f, Reads(node)), BuffersOf(ready, node.outputs), ready.heap));
    ReleasedExactly(plan, ran, step.freeFrom, step.freeTo);
    AllocationKeeps(g, plan.alloc, f, node.outputs, outs, |node.outputs|, 0);
    GoneIs(plan, ran, step.freeFrom, step.freeTo, f', 0);
    forall v | 0 <= v < |f'.values| && v !in Defined(g, pc + 1)
      ensures f'.values[v].NotAllocated?
    {
      NotDefinedYet(g, pc, v);
      SlotUntouched(g, plan.alloc, f, node.outputs, outs, |node.outputs|, v);
      GoneIs(plan, ran, step.freeFrom, step.freeTo, f', v);
    }
  }

  lemma {:induction false} SlotUntouched(g: Graph, alloc: seq<AllocPlan>, f: Frame, outputs: seq<Option<nat>>,
                                         outs: seq<Data>, j: nat, v: nat)
    requires j <= |outputs| == |outs| && AllocateTo(g, alloc, f, outputs, outs, j).Some?
    requires Some(v) !in outputs && v < |f.values|
    ensures var f' := AllocateTo(g, alloc, f, outputs, outs, j).value;
            |f'.values| == |f.values| && f'.values[v] == f.values[v]
  {
    if j > 0 {
      SlotUntouched(g, alloc, f, outputs, outs, j - 1, v);
      assert outputs[j - 1] in outputs;
      hide HasLength, CanReuse, OwnsStorage;
    }
  }

  /**
   After every step of a run, whatever the plan, the kernels and the sizes, a traced value that the plan allocates has
   a buffer in memory exactly if the events traced so far leave it in use.
   */
  lemma {:induction false} HeldIsLive(g: Graph, plan: Plan, ks: KernelSet, feeds: Env, traced: Traced, n: nat, v: nat)
    requires EnvAt(g, feeds, 0) && n <= |g.nodes| == |plan.steps| && KeepsBuffers(ks)
    requires FrameAfter(g, plan, ks, feeds, n).Some? && Allocates(g, plan, v) && v !in feeds && traced(v)
    ensures NothingEarly(g, FrameAfter(g, plan, ks, feeds, n).value, n)
    ensures v in FrameAfter(g, plan, ks, feeds, n).value.heap <==>
              v in LiveAfter(g, plan, Owned(plan, traced), n)
  {
    hide WellFormed, StepFrame, LiveAfter, KeepsBuffers, Defined, Freed, Existing, Owned;
    var owned := Owned(plan, traced);
    IsOwned(g, plan, traced, v);
    if n == 0 {
      NothingHeld(g, plan, feeds, owned, v);
    } else {
      HeldIsLive(g, plan, ks, feeds, traced, n - 1, v);
      var f := FrameAfter(g, plan, ks, feeds, n - 1).value;
      NotDefinedYet(g, n - 1, v);
      StepNotEarly(g, plan, ks, f, n - 1);
      StepHolds(g, plan, ks, f, n - 1, v);
      LiveStep(g, plan, owned, n - 1, v);
    }
  }

  lemma IsOwned(g: Graph, plan: Plan, traced: Traced, v: nat)
    requires Allocates(g, plan, v) && traced(v)
    ensures Owned(plan, traced)(v)
  {
  }

  lemma NothingHeld(g: Graph, plan: Plan, feeds: Env, traced: Traced, v: nat)
    requires EnvAt(g, feeds, 0) && v !in feeds
    ensures NothingEarly(g, StartFrame(g, feeds), 0)
    ensures v !in StartFrame(g, feeds).heap && v !in LiveAfter(g, plan, traced, 0)
  {
    hide WellFormed;
    NothingScheduled(g, plan);
  }

  /**
   So the pattern planner has a block in use for a nonempty value exactly while the frame holds a buffer for it, and
   that block has the value's size.
   */
  lemma BlocksAreHeld(g: Graph, plan: Plan, ks: KernelSet, feeds: Env, size: Sizes, traced: Traced, n: nat, v: nat)
    requires EnvAt(g, feeds, 0) && n <= |g.nodes| == |plan.steps| && KeepsBuffers(ks)
    requires FrameAfter(g, plan, ks, feeds, n).Some? && Allocates(g, plan, v) && v !in feeds && traced(v)
    requires size(v) > 0
    ensures var sched := Schedule(g, plan, n);
            var st := After(sched, size, Owned(plan, traced), |sched|);
            && MemPattern.InRange(st)
            && (v in FrameAfter(g, plan, ks, feeds, n).value.heap <==> Item(v, size(v)) in Items(st))
            && (forall x :: x in Items(st) && x.index == v ==> x.size == size(v))
  {
    hide WellFormed, FrameAfter, KeepsBuffers, Owned, After, Items, Schedule, Live, Layout;
    var sched, owned := Schedule(g, plan, n), Owned(plan, traced);
    HeldIsLive(g, plan, ks, feeds, traced, n, v);
    ScheduleDefinesOnce(g, plan, n);
    LayoutInRange(After(sched, size, owned, |sched|));
    LiveInUse(sched, size, owned, |sched|);
  }
}
