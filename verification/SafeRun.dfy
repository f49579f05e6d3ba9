/** A run that follows a safe plan over shared buffers has the outcome of the run without sharing. */
module SafeRun {
  import opened Wrappers
  import opened GraphModel
  import opened PlanSafety
  import opened Kernels
  import opened SharedRun
  import opened ExecutorSpec

  lemma OneMore(args: seq<Option<nat>>, j: nat)
    requires j < |args|
    ensures forall a :: a in args[..j + 1] <==> a in args[..j] || a == args[j]
  {
    assert args[..j + 1] == args[..j] + [args[j]];
  }

  /** One more output of step pc has been placed. */
  lemma PlacedStep(g: Graph, root: seq<nat>, values: seq<MLValue>, heap: Heap, values': seq<MLValue>, heap': Heap,
                   outs: seq<Data>, pc: nat, j: nat)
    requires WellFormed(g) && Placed(g, root, values, heap, values', heap', outs, pc, j) && j < |outs|
    requires g.nodes[pc].outputs[j].Some? && g.nodes[pc].outputs[j].value < |root|
    ensures var o := g.nodes[pc].outputs[j].value;
            && !IsOutput(g, pc, j, o)
            && (root[o] == o ==>
                  Placed(g, root, values, heap, values'[o := Allocated(o)], heap'[o := Zeros(|outs[j]|)], outs, pc,
                         j + 1))
            && (root[o] != o ==>
                  Placed(g, root, values, heap, values'[o := Allocated(root[o])], heap', outs, pc, j + 1))
  {
    hide WellFormed;
    var outputs := g.nodes[pc].outputs;
    var o := outputs[j].value;
    OneMore(outputs, j);
    forall v: nat
      ensures IsOutput(g, pc, j + 1, v) <==> IsOutput(g, pc, j, v) || v == o
    {
      assert Some(v) == outputs[j] <==> v == o;
    }
    forall i | 0 <= i < j && outputs[i].Some?
      ensures outputs[i].value != o
    {
      OutputsDistinct(g, pc, i, j);
    }
  }

  lemma PlacedSkip(g: Graph, root: seq<nat>, values: seq<MLValue>, heap: Heap, values': seq<MLValue>, heap': Heap,
                   outs: seq<Data>, pc: nat, j: nat)
    requires Placed(g, root, values, heap, values', heap', outs, pc, j) && j < |outs| && g.nodes[pc].outputs[j].None?
    ensures Placed(g, root, values, heap, values', heap', outs, pc, j + 1)
  {
    var outputs := g.nodes[pc].outputs;
    OneMore(outputs, j);
    assert forall v: nat :: IsOutput(g, pc, j + 1, v) <==> IsOutput(g, pc, j, v);
  }

  /** Nothing has been placed yet. */
  lemma PlacedNone(g: Graph, root: seq<nat>, values: seq<MLValue>, heap: Heap, outs: seq<Data>, pc: nat)
    requires pc < |g.nodes| && |outs| == |g.nodes[pc].outputs| && |values| == |root|
    ensures Placed(g, root, values, heap, values, heap, outs, pc, 0)
  {
    assert forall v: nat :: !IsOutput(g, pc, 0, v);
  }

  /** The plan is safe and the run honest; the frame stands before step pc with environment env. */
  ghost predicate Standing(g: Graph, plan: Plan, ks: KernelSet, f: Frame, env: Env, gone: set<nat>, pc: nat) {
    && WellFormed(g) && SafePlan(g, plan) && Honours(g, ks)
    && Matches(g, RootMap(plan), f.values, f.heap, env, gone, pc) && RunShapesSound(g, ks, env, pc)
  }

  lemma SafePlanStep(g: Graph, plan: Plan, pc: nat)
    requires SafePlan(g, plan) && pc < |g.nodes|
    ensures StepPlanned(g, RootMap(plan), pc)
  {
    hide StepSafe, RangeSafe;
  }

  /** Whether output j owns a buffer or shares one, its allocation succeeds and leads to its root's buffer. */
  lemma AllocationWorks(g: Graph, plan: Plan, ks: KernelSet, f: Frame, env: Env, env': Env, gone: set<nat>, f': Frame,
                        outs: seq<Data>, pc: nat, j: nat)
    requires Standing(g, plan, ks, f, env, gone, pc) && StepEnv(g, ks, env, env', outs, pc) && ShapesSound(g, env')
    requires Placed(g, RootMap(plan), f.values, f.heap, f'.values, f'.heap, outs, pc, j)
    requires j < |outs| && g.nodes[pc].outputs[j].Some?
    ensures var a := Allocation(g, plan.alloc, f', g.nodes[pc].outputs[j].value, |outs[j]|);
            a.Some? && Placed(g, RootMap(plan), f.values, f.heap, a.value.values, a.value.heap, outs, pc, j + 1)
  {
    var root := RootMap(plan);
    var o := g.nodes[pc].outputs[j].value;
    hide *;
    StandingFacts(g, plan, ks, f, env, gone, pc);
    assert Some(o) in g.nodes[pc].outputs by { assert g.nodes[pc].outputs[j] == Some(o); }
    KindOf(g, plan, pc, o);
    NewSlot(g, plan, ks, f, env, env', gone, f', outs, pc, j);
    PlacedStep(g, root, f.values, f.heap, f'.values, f'.heap, outs, pc, j);
    if root[o] == o {
      OwnAllocation(g, plan.alloc, f', o, |outs[j]|);
    } else {
      SharedSlot(g, plan, ks, f, env, env', gone, f', outs, pc, j);
      SharedAllocation(g, plan.alloc, f', o, |outs[j]|);
    }
  }

  lemma OwnAllocation(g: Graph, alloc: seq<AllocPlan>, f: Frame, o: nat, size: nat)
    requires o < |f.values| == |alloc| == |g.values| && f.values[o].NotAllocated?
             && alloc[o].kind in {Allocate, AllocateOutput}
    ensures Allocation(g, alloc, f, o, size) == Some(Frame(f.values[o := Allocated(o)], f.heap[o := Zeros(size)]))
  {
  }

  lemma SharedAllocation(g: Graph, alloc: seq<AllocPlan>, f: Frame, o: nat, size: nat)
    requires o < |f.values| == |alloc| == |g.values| && f.values[o].NotAllocated? && alloc[o].kind.Reuse?
    requires var r := alloc[o].reused;
             && r < |f.values| && f.values[r] == Allocated(r) && r in f.heap && |f.heap[r]| == size
             && g.values[o].isTensor && g.values[r].isTensor
    ensures Allocation(g, alloc, f, o, size) == Some(Frame(f.values[o := Allocated(alloc[o].reused)], f.heap))
  {
  }

  lemma StandingFacts(g: Graph, plan: Plan, ks: KernelSet, f: Frame, env: Env, gone: set<nat>, pc: nat)
    requires Standing(g, plan, ks, f, env, gone, pc)
    ensures WellFormed(g) && SafePlan(g, plan) && Honours(g, ks) && EnvAt(g, env, pc)
    ensures Matches(g, RootMap(plan), f.values, f.heap, env, gone, pc) && RunShapesSound(g, ks, env, pc)
    ensures |f.values| == |RootMap(plan)| == |plan.alloc| == |g.values| && |plan.steps| == |g.nodes|
  {
    hide WellFormed, Honours, RunShapesSound;
  }

  lemma NewSlot(g: Graph, plan: Plan, ks: KernelSet, f: Frame, env: Env, env': Env, gone: set<nat>, f': Frame,
                outs: seq<Data>, pc: nat, j: nat)
    requires Standing(g, plan, ks, f, env, gone, pc) && StepEnv(g, ks, env, env', outs, pc)
    requires Placed(g, RootMap(plan), f.values, f.heap, f'.values, f'.heap, outs, pc, j)
    requires j < |outs| && g.nodes[pc].outputs[j].Some?
    ensures |f'.values| == |RootMap(plan)| == |f.values|
    ensures g.nodes[pc].outputs[j].value < |f'.values| && f'.values[g.nodes[pc].outputs[j].value].NotAllocated?
  {
    hide Standing, StepEnv, WellFormed, SafePlan, RootMap;
    var root := RootMap(plan);
    var o := g.nodes[pc].outputs[j].value;
    StandingFacts(g, plan, ks, f, env, gone, pc);
    AfterStep(g, ks, env, env', outs, pc);
    assert g.nodes[pc].outputs[j] in g.nodes[pc].outputs;
    assert o < |root| && o in env' && o !in env;
    PlacedStep(g, root, f.values, f.heap, f'.values, f'.heap, outs, pc, j);
    assert SlotsMatch(root, f.values, env);
  }

  lemma SharedSlot(g: Graph, plan: Plan, ks: KernelSet, f: Frame, env: Env, env': Env, gone: set<nat>, f': Frame,
                   outs: seq<Data>, pc: nat, j: nat)
    requires Standing(g, plan, ks, f, env, gone, pc) && StepEnv(g, ks, env, env', outs, pc) && ShapesSound(g, env')
    requires Placed(g, RootMap(plan), f.values, f.heap, f'.values, f'.heap, outs, pc, j)
    requires j < |outs| && g.nodes[pc].outputs[j].Some? && g.nodes[pc].outputs[j].value < |RootMap(plan)|
    requires RootMap(plan)[g.nodes[pc].outputs[j].value] != g.nodes[pc].outputs[j].value
    ensures var r := RootMap(plan)[g.nodes[pc].outputs[j].value];
            r < |f'.values| && f'.values[r] == Allocated(r) && r in f'.heap && |f'.heap[r]| == |outs[j]|
  {
    hide Standing, StepEnv, WellFormed, SafePlan, RootMap, StepPlanned, Matches;
    var root := RootMap(plan);
    var outputs := g.nodes[pc].outputs;
    var r := root[outputs[j].value];
    StandingFacts(g, plan, ks, f, env, gone, pc);
    SafePlanStep(g, plan, pc);
    RootAvailable(g, ks, root, f.values, f.heap, env, env', gone, outs, pc, j);
    AfterStep(g, ks, env, env', outs, pc);
    assert Some(r) !in outputs;
    assert !IsOutput(g, pc, j, r);
  }

  lemma KindOf(g: Graph, plan: Plan, pc: nat, o: nat)
    requires WellFormed(g) && SafePlan(g, plan) && pc < |g.nodes| && Some(o) in g.nodes[pc].outputs
    ensures o < |plan.alloc| == |g.values| && plan.alloc[o].kind in {Allocate, AllocateOutput, Reuse}
    ensures plan.alloc[o].kind.Reuse? <==> RootMap(plan)[o] != o
    ensures plan.alloc[o].kind.Reuse? ==>
              var r := plan.alloc[o].reused;
              r == RootMap(plan)[o] && r < |g.values| && g.values[o].isTensor && g.values[r].isTensor
  {
    assert o in Existing(g.nodes[pc].outputs);
    DefinedGrows(g, pc + 1, |g.nodes|);
    DefinedInRange(g, |g.nodes|, o);
    assert NodeOk(g, pc);
    DefinedGrows(g, 0, pc);
    assert o !in Sources(g);
    hide WellFormed, StepSafe, RangeSafe, Defined;
  }

  lemma AllocateNext(g: Graph, alloc: seq<AllocPlan>, f: Frame, outputs: seq<Option<nat>>, outs: seq<Data>, j: nat)
    requires j < |outputs| == |outs|
    ensures AllocateTo(g, alloc, f, outputs, outs, 0) == Some(f)
    ensures var before := AllocateTo(g, alloc, f, outputs, outs, j);
            AllocateTo(g, alloc, f, outputs, outs, j + 1) ==
            if before.None? || outputs[j].None? then before
            else Allocation(g, alloc, before.value, outputs[j].value, |outs[j]|)
  {
  }

  lemma AllocateNone(g: Graph, alloc: seq<AllocPlan>, f: Frame, outputs: seq<Option<nat>>, outs: seq<Data>)
    requires |outputs| == |outs|
    ensures AllocateTo(g, alloc, f, outputs, outs, 0) == Some(f)
  {
  }

  /** The frame grants every output of a step, one after the other. */
  lemma {:induction false} AllocateWorks(g: Graph, plan: Plan, ks: KernelSet, f: Frame, env: Env, env': Env,
                                         gone: set<nat>, outs: seq<Data>, pc: nat, j: nat)
    requires Standing(g, plan, ks, f, env, gone, pc) && StepEnv(g, ks, env, env', outs, pc) && ShapesSound(g, env')
    requires pc < |g.nodes| && j <= |outs| == |g.nodes[pc].outputs|
    ensures var a := AllocateTo(g, plan.alloc, f, g.nodes[pc].outputs, outs, j);
            a.Some? && Placed(g, RootMap(plan), f.values, f.heap, a.value.values, a.value.heap, outs, pc, j)
  {
    hide *;
    var outputs := g.nodes[pc].outputs;
    StandingFacts(g, plan, ks, f, env, gone, pc);
    if j == 0 {
      AllocateNone(g, plan.alloc, f, outputs, outs);
      PlacedNone(g, RootMap(plan), f.values, f.heap, outs, pc);
    } else {
      AllocateWorks(g, plan, ks, f, env, env', gone, outs, pc, j - 1);
      AllocateNext(g, plan.alloc, f, outputs, outs, j - 1);
      var a := AllocateTo(g, plan.alloc, f, outputs, outs, j - 1).value;
      if outputs[j - 1].Some? {
        AllocationWorks(g, plan, ks, f, env, env', gone, a, outs, pc, j - 1);
      } else {
        PlacedSkip(g, RootMap(plan), f.values, f.heap, a.values, a.heap, outs, pc, j - 1);
      }
    }
  }

  lemma RangeIsSafe(g: Graph, plan: Plan, pc: nat, i: int)
    requires SafePlan(g, plan) && pc < |g.nodes| == |plan.steps|
             && plan.steps[pc].freeFrom <= i <= plan.steps[pc].freeTo
    ensures Covers(g, RootMap(plan)) && |RootMap(plan)| == |g.values|
    ensures 0 <= i < |plan.toBeFreed| && plan.toBeFreed[i] < |g.values|
            && ReleaseSafe(g, RootMap(plan), pc, plan.toBeFreed[i])
  {
    assert RangeSafe(g, plan, RootMap(plan), pc);
    assert InRange(plan.steps[pc], i);
  }

  lemma SlotExists(g: Graph, plan: Plan, values: seq<MLValue>, heap: Heap, env: Env, gone: set<nat>, pc: nat)
    requires Matches(g, RootMap(plan), values, heap, env, gone, pc)
    ensures |values| == |g.values|
  {
  }

  lemma ReleaseNext(plan: Plan, f: Frame, i: int, last: int)
    requires i <= last ==> 0 <= i < |plan.toBeFreed| && plan.toBeFreed[i] < |f.values|
    ensures ReleaseRange(plan, f, i, last) ==
            if i > last then Some(f) else ReleaseRange(plan, ReleaseOne(f, plan.toBeFreed[i]), i + 1, last)
  {
  }

  /** Releasing the range of step pc, from entry i on, takes nothing away that is still needed. */
  lemma {:induction false} ReleaseWorks(g: Graph, plan: Plan, f: Frame, env: Env, gone: set<nat>, pc: nat, i: int)
    returns (gone': set<nat>)
    requires SafePlan(g, plan) && pc < |g.nodes| == |plan.steps| && plan.steps[pc].freeFrom <= i
    requires Matches(g, RootMap(plan), f.values, f.heap, env, gone, pc + 1)
    ensures var left := ReleaseRange(plan, f, i, plan.steps[pc].freeTo);
            left.Some? && Matches(g, RootMap(plan), left.value.values, left.value.heap, env, gone', pc + 1)
    decreases plan.steps[pc].freeTo - i
  {
    hide *;
    gone' := gone;
    var last := plan.steps[pc].freeTo;
    if i <= last {
      RangeIsSafe(g, plan, pc, i);
      SlotExists(g, plan, f.values, f.heap, env, gone, pc + 1);
      var r := plan.toBeFreed[i];
      ReleaseMatches(g, RootMap(plan), f.values, f.heap, env, gone, pc, r);
      ReleasedFrame(f, r);
      gone' := ReleaseWorks(g, plan, ReleaseOne(f, r), env, gone + {r}, pc, i + 1);
    }
    ReleaseNext(plan, f, i, last);
  }

  lemma ReleasedFrame(f: Frame, r: nat)
    requires r < |f.values|
    ensures ReleaseOne(f, r) == Frame(f.values[r := NotAllocated], f.heap - {r})
  {
  }

  lemma ReadsArePresent(g: Graph, root: seq<nat>, f: Frame, env: Env, gone: set<nat>, pc: nat)
    requires Matches(g, root, f.values, f.heap, env, gone, pc) && pc < |g.nodes|
    ensures AllReadable(f, Reads(g.nodes[pc])) && BuffersOf(f, Reads(g.nodes[pc])) == RootArgs(root, Reads(g.nodes[pc]))
  {
    hide Matches;
    var args := Reads(g.nodes[pc]);
    forall p | 0 <= p < |args| && args[p].Some?
      ensures Readable(f, args[p].value) && args[p].value < |root| && f.values[args[p].value].buf == root[args[p].value]
    {
      ReadsMatch(g, root, f.values, f.heap, env, gone, pc, p);
    }
  }

  lemma ResultsOf(g: Graph, ks: KernelSet, env: Env, pc: nat)
    requires EnvAt(g, env, pc) && pc < |g.nodes| && forall v :: Some(v) in Reads(g.nodes[pc]) ==> v in env
    ensures Results(g, ks, env, pc) == ks.compute(pc, Look(env, Reads(g.nodes[pc])))
  {
  }

  lemma StepEnvMade(g: Graph, ks: KernelSet, env: Env, outs: seq<Data>, pc: nat)
    requires EnvAt(g, env, pc) && pc < |g.nodes| && Honours(g, ks) && Results(g, ks, env, pc) == Some(outs)
    requires RunShapesSound(g, ks, env, pc)
    ensures StepEnv(g, ks, env, Next(g, ks, env, pc), outs, pc) && ShapesSound(g, Next(g, ks, env, pc))
    ensures EnvAt(g, Next(g, ks, env, pc), pc + 1) && RunShapesSound(g, ks, Next(g, ks, env, pc), pc + 1)
  {
    ReadsDefined(g, pc);
    assert ComputeHonours(g, ks, pc, Look(env, Reads(g.nodes[pc])));
    hide ShapesSound, Next, WellFormed;
  }

  lemma OutputsArePresent(g: Graph, plan: Plan, ks: KernelSet, f: Frame, env: Env, env': Env, gone: set<nat>, f': Frame,
                          outs: seq<Data>, pc: nat)
    requires Standing(g, plan, ks, f, env, gone, pc) && StepEnv(g, ks, env, env', outs, pc) && ShapesSound(g, env')
    requires Placed(g, RootMap(plan), f.values, f.heap, f'.values, f'.heap, outs, pc, |outs|)
    ensures AllReadable(f', g.nodes[pc].outputs)
    ensures BuffersOf(f', g.nodes[pc].outputs) == RootArgs(RootMap(plan), g.nodes[pc].outputs)
  {
    hide Standing, StepEnv, StepPlanned, WellFormed, SafePlan, RootMap, ShapesSound, Matches;
    var root := RootMap(plan);
    var outputs := g.nodes[pc].outputs;
    StandingFacts(g, plan, ks, f, env, gone, pc);
    SafePlanStep(g, plan, pc);
    AfterStep(g, ks, env, env', outs, pc);
    BeforeKernel(g, ks, root, f.values, f.heap, env, env', gone, f'.values, f'.heap, outs, pc);
    assert outputs[..|outputs|] == outputs;
    forall j | 0 <= j < |outputs| && outputs[j].Some?
      ensures var v := outputs[j].value; Readable(f', v) && v < |root| && f'.values[v].buf == root[v]
    {
      assert outputs[j] in outputs && outputs[j].value in env';
      assert IsOutput(g, pc, |outs|, outputs[j].value);
    }
  }

  lemma StandingAgain(g: Graph, plan: Plan, ks: KernelSet, f: Frame, env: Env, gone: set<nat>, pc: nat)
    requires WellFormed(g) && SafePlan(g, plan) && Honours(g, ks) && EnvAt(g, env, pc)
    requires Matches(g, RootMap(plan), f.values, f.heap, env, gone, pc) && RunShapesSound(g, ks, env, pc)
    ensures Standing(g, plan, ks, f, env, gone, pc)
  {
    hide WellFormed, SafePlan, Honours, Matches, RunShapesSound;
  }

  /** The parts of one step, put together. */
  lemma StepFrameIs(g: Graph, plan: Plan, ks: KernelSet, f: Frame, pc: nat)
    requires pc < |g.nodes| == |plan.steps| && AllReadable(f, Reads(g.nodes[pc]))
    ensures var node, from := g.nodes[pc], BuffersOf(f, Reads(g.nodes[pc]));
            && (forall b :: Some(b) in from ==> b in f.heap)
            && var results := ks.compute(pc, Look(f.heap, from));
            && (results.None? ==> StepFrame(g, plan, ks, f, pc) == KernelFailed)
            && (results.Some? && |results.value| == |node.outputs| ==>
                  var ready := AllocateTo(g, plan.alloc, f, node.outputs, results.value, |node.outputs|);
                  ready.Some? ==>
                    StepFrame(g, plan, ks, f, pc) == Finish(plan, ks, ready.value, from, node.outputs, pc))
  {
    hide AllReadable, AllocateTo, Finish;
  }

  lemma FinishIs(plan: Plan, ks: KernelSet, f: Frame, from: seq<Option<nat>>, outputs: seq<Option<nat>>, pc: nat)
    requires pc < |plan.steps| && AllReadable(f, outputs)
    ensures var left := ReleaseRange(plan, f.(heap := ks.run(pc, from, BuffersOf(f, outputs), f.heap)),
                                     plan.steps[pc].freeFrom, plan.steps[pc].freeTo);
            left.Some? ==> Finish(plan, ks, f, from, outputs, pc) == Ran(left.value)
  {
    hide AllReadable, ReleaseRange;
  }

  /** One step of the shared run follows one step of the reference run, failure included. */
  lemma StepFollows(g: Graph, plan: Plan, ks: KernelSet, f: Frame, env: Env, gone: set<nat>, pc: nat)
    returns (gone': set<nat>)
    requires Standing(g, plan, ks, f, env, gone, pc) && pc < |g.nodes| == |plan.steps| && EnvAt(g, env, pc)
             && Honours(g, ks)
    ensures Results(g, ks, env, pc).None? ==> StepFrame(g, plan, ks, f, pc) == KernelFailed
    ensures Results(g, ks, env, pc).Some? ==>
              && StepFrame(g, plan, ks, f, pc).Ran?
              && Standing(g, plan, ks, StepFrame(g, plan, ks, f, pc).frame, Next(g, ks, env, pc), gone', pc + 1)
  {
    hide *;
    gone' := gone;
    StandingFacts(g, plan, ks, f, env, gone, pc);
    var node, root := g.nodes[pc], RootMap(plan);
    ReadsArePresent(g, root, f, env, gone, pc);
    LooksTheSame(g, root, f.values, f.heap, env, gone, pc);
    ResultsOf(g, ks, env, pc);
    StepFrameIs(g, plan, ks, f, pc);
    if Results(g, ks, env, pc).Some? {
      var outs, env' := Results(g, ks, env, pc).value, Next(g, ks, env, pc);
      StepEnvMade(g, ks, env, outs, pc);
      StepEnvFacts(g, ks, env, env', outs, pc);
      AllocateWorks(g, plan, ks, f, env, env', gone, outs, pc, |outs|);
      var f' := AllocateTo(g, plan.alloc, f, node.outputs, outs, |outs|).value;
      OutputsArePresent(g, plan, ks, f, env, env', gone, f', outs, pc);
      SafePlanStep(g, plan, pc);
      StepMatches(g, ks, root, f.values, f.heap, env, env', gone, f'.values, f'.heap, outs, pc);
      var heap := ks.run(pc, RootArgs(root, Reads(node)), RootArgs(root, node.outputs), f'.heap);
      gone' := ReleaseWorks(g, plan, f'.(heap := heap), env', gone, pc, plan.steps[pc].freeFrom);
      FinishIs(plan, ks, f', RootArgs(root, Reads(node)), node.outputs, pc);
      StandingAgain(g, plan, ks, StepFrame(g, plan, ks, f, pc).frame, env', gone', pc + 1);
    }
  }

  /** The frame a run starts from. */
  lemma StandingAtStart(g: Graph, plan: Plan, ks: KernelSet, feeds: Env)
    requires WellFormed(g) && SafePlan(g, plan) && Honours(g, ks) && EnvAt(g, feeds, 0)
             && RunShapesSound(g, ks, feeds, 0)
    ensures Standing(g, plan, ks, StartFrame(g, feeds), feeds, {}, 0)
  {
    var root, values := RootMap(plan), StartFrame(g, feeds).values;
    assert forall v :: v in feeds ==> v < |root| && root[v] == v;
    hide Honours, RunShapesSound, WellFormed, Dead, StepSafe, RangeSafe;
    assert Matches(g, root, values, feeds, feeds, {}, 0);
  }

  lemma OutputsAreRight(g: Graph, root: seq<nat>, f: Frame, env: Env, gone: set<nat>, i: nat)
    requires WellFormed(g) && Matches(g, root, f.values, f.heap, env, gone, |g.nodes|) && i < |g.outputs|
    ensures var v := g.outputs[i];
            v in env && Readable(f, v) && f.heap[f.values[v].buf] == env[v]
  {
    assert g.outputs[i] in Holds(g);
    assert g.outputs[i] in Defined(g, |g.nodes|);
  }

  lemma FetchIsReference(g: Graph, plan: Plan, ks: KernelSet, f: Frame, env: Env, gone: set<nat>)
    requires Standing(g, plan, ks, f, env, gone, |g.nodes|) && EnvAt(g, env, |g.nodes|) && Honours(g, ks)
    ensures Fetch(g, f) == ReferenceRun(g, ks, env, |g.nodes|)
  {
    StandingFacts(g, plan, ks, f, env, gone, |g.nodes|);
    hide Standing, WellFormed, SafePlan, Honours, Matches, Readable, RunShapesSound, EnvAt;
    ReferenceEnd(g, ks, env);
    forall i | 0 <= i < |g.outputs|
      ensures Readable(f, g.outputs[i]) && g.outputs[i] in env
    {
      OutputsAreRight(g, RootMap(plan), f, env, gone, i);
    }
    FetchIs(g, f);
    forall i | 0 <= i < |g.outputs|
      ensures Fetch(g, f).Outputs? && i < |Fetch(g, f).data| && Fetch(g, f).data[i] == env[g.outputs[i]]
    {
      OutputsAreRight(g, RootMap(plan), f, env, gone, i);
    }
  }

  lemma FetchIs(g: Graph, f: Frame)
    requires forall i :: 0 <= i < |g.outputs| ==> Readable(f, g.outputs[i])
    ensures Fetch(g, f).Outputs? && |Fetch(g, f).data| == |g.outputs|
    ensures forall i :: 0 <= i < |g.outputs| ==>
              Readable(f, g.outputs[i]) && Fetch(g, f).data[i] == f.heap[f.values[g.outputs[i]].buf]
  {
  }

  lemma {:induction false} RunFollows(g: Graph, plan: Plan, ks: KernelSet, f: Frame, env: Env, gone: set<nat>, pc: nat)
    requires pc <= |g.nodes| == |plan.steps| && EnvAt(g, env, pc) && Honours(g, ks)
    requires Standing(g, plan, ks, f, env, gone, pc)
    ensures RunFrom(g, plan, ks, f, pc) == ReferenceRun(g, ks, env, pc)
    decreases |g.nodes| - pc
  {
    hide Standing, EnvAt, Honours, StepFrame, Results, Next, Fetch;
    if pc == |g.nodes| {
      FetchIsReference(g, plan, ks, f, env, gone);
    } else {
      var gone' := StepFollows(g, plan, ks, f, env, gone, pc);
      ReferenceStep(g, ks, env, pc);
      if Results(g, ks, env, pc).Some? {
        RunFollows(g, plan, ks, StepFrame(g, plan, ks, f, pc).frame, Next(g, ks, env, pc), gone', pc + 1);
      }
    }
  }

  /**
   Whatever the graph, the plan and the kernels, as long as the plan is safe and the kernels honour their declarations,
   the outcome is the one of the run in which every value has a buffer of its own; in particular no value is read after
   its buffer has been released and no shared buffer is too small.
   */
  lemma SafeRunIsReference(g: Graph, plan: Plan, ks: KernelSet, feeds: Env)
    requires WellFormed(g) && SafePlan(g, plan) && Honours(g, ks) && |plan.steps| == |g.nodes|
    requires EnvAt(g, feeds, 0) && RunShapesSound(g, ks, feeds, 0)
    ensures RunPlan(g, plan, ks, feeds) == ReferenceRun(g, ks, feeds, 0)
  {
    hide WellFormed, SafePlan, Honours, EnvAt, RunShapesSound, Standing, RunFrom, StartFrame;
    StandingAtStart(g, plan, ks, feeds);
    RunFollows(g, plan, ks, StartFrame(g, feeds), feeds, {}, 0);
  }

  lemma ReferenceStep(g: Graph, ks: KernelSet, env: Env, pc: nat)
    requires EnvAt(g, env, pc) && Honours(g, ks) && pc < |g.nodes|
    ensures ReferenceRun(g, ks, env, pc) == if Results(g, ks, env, pc).None? then Failed(pc)
                                            else ReferenceRun(g, ks, Next(g, ks, env, pc), pc + 1)
    ensures Results(g, ks, env, pc).Some? ==> EnvAt(g, Next(g, ks, env, pc), pc + 1)
  {
  }

  lemma ReferenceEnd(g: Graph, ks: KernelSet, env: Env)
    requires EnvAt(g, env, |g.nodes|) && Honours(g, ks)
    ensures forall i :: 0 <= i < |g.outputs| ==> g.outputs[i] in env
    ensures ReferenceRun(g, ks, env, |g.nodes|) ==
            Outputs(seq(|g.outputs|, i requires 0 <= i < |g.outputs| => env[g.outputs[i]]))
  {
  }
}
