/** Graphs on which the planner's sharing changes the outcome, although every kernel is honest. */
module PlanCounterexamples {
  import opened Wrappers
  import opened GraphModel
  import opened PlanSafety
  import opened PlannerInvariant
  import opened PlannerSpec
  import opened Placement
  import opened PlannerSteps
  import opened PlannerRun
  import opened PlannerExact
  import opened Planner
  import opened Kernels
  import opened HonestKernels
  import opened SharedRun
  import opened ExecutorSpec

  // ----- what every plan of the planner has in common

  /** The range of a step is empty. */
  predicate ReleasesNothing(step: StepPlan) {
    step.freeFrom > step.freeTo
  }

  lemma NoneInRange(step: StepPlan)
    requires forall i :: !InRange(step, i)
    ensures ReleasesNothing(step)
  {
    assert !InRange(step, step.freeFrom);
  }

  lemma FirstReleasesNothing(g: Graph, parallel: bool, plan: Plan)
    requires WellFormed(g) && AllKernels(g) && Made(g, parallel, plan) && |g.nodes| > 0
    ensures |plan.steps| == |g.nodes| && ReleasesNothing(plan.steps[0])
  {
    hide WellFormed, AllKernels, StateAt;
    var freelist := StateAt(g, parallel, |g.nodes|).freelist;
    assert RangeExact(freelist, |freelist|, plan.steps[0], 0);
    NoneInRange(plan.steps[0]);
  }

  /** A step releases nothing when no root is dead and done with after it. */
  lemma LaterReleasesNothing(g: Graph, parallel: bool, plan: Plan, pc: nat)
    requires WellFormed(g) && AllKernels(g) && Made(g, parallel, plan) && pc < |g.nodes|
    requires Covers(g, StateAt(g, parallel, |g.nodes|).buffer)
    requires forall r: nat :: !ReleaseSafe(g, StateAt(g, parallel, |g.nodes|).buffer, pc, r)
    ensures |plan.steps| == |g.nodes| && ReleasesNothing(plan.steps[pc])
  {
    hide WellFormed, AllKernels, StateAt, ReleaseSafe, Made;
    RangesSafe(g, parallel, plan);
    assert RangeSafe(g, plan, StateAt(g, parallel, |g.nodes|).buffer, pc);
    NoneInRange(plan.steps[pc]);
  }

  /** A produced graph output has a buffer of its own. */
  lemma OutputOwns(g: Graph, parallel: bool, plan: Plan, v: nat)
    requires WellFormed(g) && AllKernels(g) && Made(g, parallel, plan)
    requires v < |g.values| && v in g.outputs && !IsSource(g, v)
    ensures |plan.alloc| == |g.values| && plan.alloc[v].kind == AllocateOutput
    ensures |StateAt(g, parallel, |g.nodes|).buffer| == |g.values| && StateAt(g, parallel, |g.nodes|).buffer[v] == v
  {
    assert v in Defined(g, |g.nodes|);
    hide WellFormed, AllKernels, StateAt, Invariant, StepsSafe, Released;
    AlwaysReady(false, g, parallel, |g.nodes|);
  }

  /** The plan entry of a value, read off its final buffer. */
  lemma EntryOf(g: Graph, parallel: bool, plan: Plan, v: nat)
    requires WellFormed(g) && AllKernels(g) && Made(g, parallel, plan) && v < |g.values| && !IsSource(g, v)
    ensures |plan.alloc| == |g.values| == |StateAt(g, parallel, |g.nodes|).buffer|
    ensures var r := StateAt(g, parallel, |g.nodes|).buffer[v];
            if r == v then plan.alloc[v].kind in {Allocate, AllocateOutput} else plan.alloc[v] == AllocPlan(Reuse, r)
  {
    assert v in Defined(g, |g.nodes|);
    hide WellFormed, AllKernels, StateAt, Made;
    MadeFacts(g, parallel, plan);
    assert RootMap(plan)[v] == Root(plan.alloc, v);
  }

  // ----- running one node of a small graph

  /** The step reads nothing that is missing, grants its outputs and releases nothing. */
  lemma RunsTo(g: Graph, plan: Plan, ks: KernelSet, f: Frame, pc: nat, outs: seq<Data>, ready: Frame)
    requires pc < |g.nodes| == |plan.steps| && AllReadable(f, Reads(g.nodes[pc]))
    requires ks.compute(pc, Look(f.heap, BuffersOf(f, Reads(g.nodes[pc])))) == Some(outs)
    requires |outs| == |g.nodes[pc].outputs|
    requires AllocateTo(g, plan.alloc, f, g.nodes[pc].outputs, outs, |outs|) == Some(ready)
    requires AllReadable(ready, g.nodes[pc].outputs) && ReleasesNothing(plan.steps[pc])
    ensures var heap := ks.run(pc, BuffersOf(f, Reads(g.nodes[pc])), BuffersOf(ready, g.nodes[pc].outputs), ready.heap);
            StepFrame(g, plan, ks, f, pc) == Ran(ready.(heap := heap))
  {
    hide AllReadable, AllocateTo;
  }

  /** Entry k names one of n values, and not v. */
  predicate NamesOther(plan: Plan, k: int, n: nat, v: nat) {
    0 <= k < |plan.toBeFreed| && plan.toBeFreed[k] < n && plan.toBeFreed[k] != v
  }

  /** Releasing other values leaves v where it is. */
  lemma {:induction false} ReleaseKeeps(plan: Plan, f: Frame, i: int, last: int, v: nat)
    requires forall k :: i <= k <= last ==> NamesOther(plan, k, |f.values|, v)
    requires Readable(f, v) && f.values[v].buf == v
    ensures var left := ReleaseRange(plan, f, i, last);
            left.Some? && Readable(left.value, v) && left.value.values[v].buf == v && left.value.heap[v] == f.heap[v]
    decreases last - i
  {
    if i <= last {
      assert NamesOther(plan, i, |f.values|, v);
      ReleaseKeeps(plan, ExecutorSpec.ReleaseOne(f, plan.toBeFreed[i]), i + 1, last, v);
    }
  }

  function Unit(): ValueInfo {
    ValueInfo(true, Some([Value(1)]), 1, 0)
  }

  function Source(out: nat): Node {
    Node([], [], [Some(out)], Some(KernelDef([], [])))
  }

  function Increased(x: Data): Data {
    if |x| == 1 then [x[0] + 1] else x
  }

  function First(ins: seq<Option<Data>>): Data {
    if |ins| > 0 && ins[0].Some? then ins[0].value else [0]
  }

  /** The node that produces value 0 puts it into memory. */
  lemma SourceStep(g: Graph, plan: Plan, compute: Compute)
    requires 0 < |g.nodes| == |plan.steps| && g.nodes[0] == Source(0) && 0 < |g.values| == |plan.alloc|
    requires OwnsStorage(g, plan.alloc, 0) && compute(0, []) == Some([[5]]) && ReleasesNothing(plan.steps[0])
    ensures StepFrame(g, plan, Writer(compute), StartFrame(g, map[]), 0) ==
            Ran(Frame(StartFrame(g, map[]).values[0 := Allocated(0)], map[0 := [5]]))
  {
    var f, outputs, outs: seq<Data> := StartFrame(g, map[]), g.nodes[0].outputs, [[5]];
    var ready := Frame(f.values[0 := Allocated(0)], map[0 := [0]]);
    assert AllocateTo(g, plan.alloc, f, outputs, outs, 0) == Some(f);
    assert Zeros(1) == [0];
    assert Allocation(g, plan.alloc, f, 0, 1) == Some(ready);
    assert AllocateTo(g, plan.alloc, f, outputs, outs, 1) == Some(ready);
    RunsTo(g, plan, Writer(compute), f, 0, outs, ready);
    assert BuffersOf(ready, outputs) == [Some(0)];
    assert WriteTo(ready.heap, [Some(0)], outs, 1) == map[0 := [5]];
  }

  /** One step of the run without sharing. */
  lemma ReferenceStepIs(g: Graph, ks: KernelSet, env: Env, pc: nat, outs: seq<Data>, env': Env)
    requires EnvAt(g, env, pc) && pc < |g.nodes| && Honours(g, ks)
    requires (forall v :: Some(v) in Reads(g.nodes[pc]) ==> v in env)
    requires ks.compute(pc, Look(env, Reads(g.nodes[pc]))) == Some(outs) && |outs| == |g.nodes[pc].outputs|
    requires env' == Bind(env, g.nodes[pc].outputs, outs, |outs|)
    ensures EnvAt(g, env', pc + 1) && ReferenceRun(g, ks, env, pc) == ReferenceRun(g, ks, env', pc + 1)
    ensures ShapesSound(g, env) && RunShapesSound(g, ks, env', pc + 1) ==> RunShapesSound(g, ks, env, pc)
  {
    hide WellFormed, Honours, ShapesSound;
    assert Results(g, ks, env, pc) == Some(outs);
    assert Next(g, ks, env, pc) == env';
  }

  /** Everything the run computes has one element. */
  ghost predicate OneEach(env: Env) {
    forall v :: v in env ==> |env[v]| == 1
  }

  /** Every tensor is inferred to have one element of one byte. */
  ghost predicate Units(g: Graph) {
    forall v :: 0 <= v < |g.values| && g.values[v].isTensor ==> g.values[v] == Unit()
  }

  lemma OneEachIsSound(g: Graph, env: Env)
    requires Units(g) && OneEach(env)
    ensures ShapesSound(g, env)
  {
    var rho: Unknowns := _ => 0;
    forall v | v in env && SizeKnown(g, v)
      ensures |env[v]| == Bytes(g, v, rho)
    {
      assert [Value(1)][..0] == [] && NumElements([], rho) == 1;
      assert NumElements([Value(1)], rho) == 1;
    }
    assert SizesInferred(g, env, rho);
  }

  lemma SourceReference(g: Graph, compute: Compute)
    requires WellFormed(g) && 0 < |g.nodes| && g.nodes[0] == Source(0) && compute(0, []) == Some([[5]])
    requires Honours(g, Writer(compute)) && EnvAt(g, map[], 0) && Units(g)
    ensures EnvAt(g, map[0 := [5]], 1)
    ensures ReferenceRun(g, Writer(compute), map[], 0) == ReferenceRun(g, Writer(compute), map[0 := [5]], 1)
    ensures RunShapesSound(g, Writer(compute), map[0 := [5]], 1) ==> RunShapesSound(g, Writer(compute), map[], 0)
  {
    hide WellFormed, Honours, ShapesSound, EnvAt;
    assert Look(map[], Reads(g.nodes[0])) == [];
    assert Bind(map[], g.nodes[0].outputs, [[5]], 0) == map[];
    assert Bind(map[], g.nodes[0].outputs, [[5]], 1) == map[0 := [5]];
    ReferenceStepIs(g, Writer(compute), map[], 0, [[5]], map[0 := [5]]);
    OneEachIsSound(g, map[]);
  }

  /** With one present output the environment grows by one entry. */
  lemma BindOne(env: Env, o: nat, out: Data)
    ensures Bind(env, [Some(o)], [out], 1) == env[o := out]
  {
    assert Bind(env, [Some(o)], [out], 0) == env;
  }

  lemma LookOne(env: Env, v: nat)
    requires v in env
    ensures Look(env, [Some(v)]) == [Some(env[v])]
  {
  }

  // ----- a missing output in front of a present one

  /** Second node: its first output is missing, and the only alias pair is about that one. */
  function GapGraph(): Graph {
    Graph([Unit(), Unit()], [], [], [],
          [Source(0), Node([Some(0)], [], [None, Some(1)], Some(KernelDef([(0, 0)], [])))], [0])
  }

  function GapCompute(n: nat, ins: seq<Option<Data>>): Option<seq<Data>> {
    if n == 0 then Some([[5]]) else Some([First(ins), Increased(First(ins))])
  }

  lemma GapDefined()
    ensures var g := GapGraph();
            && |g.nodes| == 2 && Existing(g.nodes[0].outputs) == [0] && Existing(g.nodes[1].outputs) == [1]
            && Defined(g, 0) == {} && Defined(g, 1) == {0} && Defined(g, 2) == {0, 1}
  {
    var g := GapGraph();
    var args: seq<Option<nat>> := [None, Some(1)];
    assert args[1..] == [Some(1)];
    assert Existing([Some(1)]) == [1];
    assert Existing(args) == [1];
    assert Existing([Some(0)]) == [0];
    hide Existing;
    assert Defined(g, 1) == {0};
    assert Defined(g, 2) == {0, 1};
  }

  lemma GapIsWellFormed()
    ensures WellFormed(GapGraph()) && AllKernels(GapGraph()) && Defined(GapGraph(), 0) == {}
  {
    hide Existing, Defined;
    GapDefined();
    var g := GapGraph();
    assert NodeOk(g, 0);
    assert NodeOk(g, 1);
  }

  lemma GapHonours()
    ensures Honours(GapGraph(), Writer(GapCompute))
  {
    WriterHonours(GapGraph(), GapCompute);
  }

  /** The planner looks the pair up under number 0 and shares a buffer that output 1 was never declared to share. */
  lemma GapPlan(parallel: bool, plan: Plan)
    requires WellFormed(GapGraph()) && AllKernels(GapGraph()) && Made(GapGraph(), parallel, plan)
    ensures |plan.alloc| == 2 && plan.alloc[0].kind == AllocateOutput && plan.alloc[1] == AllocPlan(Reuse, 0)
    ensures |plan.steps| == 2 && ReleasesNothing(plan.steps[0]) && ReleasesNothing(plan.steps[1])
  {
    var g := GapGraph();
    hide WellFormed, AllKernels, StateAt, Made, StateBefore;
    OutputOwns(g, parallel, plan, 0);
    GapDecision(parallel);
    TakenIsFinal(g, parallel, 1, 1);
    EntryOf(g, parallel, plan, 1);
    FirstReleasesNothing(g, parallel, plan);
    var root := StateAt(g, parallel, 2).buffer;
    forall r: nat
      ensures !ReleaseSafe(g, root, 1, r)
    {
      assert 0 in Holds(g);
      HeldIsNeverDead(g, 0, 2);
    }
    LaterReleasesNothing(g, parallel, plan, 1);
  }

  lemma GapDecision(parallel: bool)
    requires WellFormed(GapGraph()) && AllKernels(GapGraph())
    ensures DecisionAt(GapGraph(), parallel, 1, 1) == TakeAlias(0)
  {
    var g := GapGraph();
    var node := g.nodes[1];
    hide WellFormed, AllKernels, StateBefore;
    PlacedNext(g, parallel, 1, 1);
    assert node.outputs[..1] == [None];
    assert Existing(node.outputs[..1]) == [];
    assert AliasHit(node, 0, 0);
  }

  lemma GapMisdirected(parallel: bool)
    requires WellFormed(GapGraph()) && AllKernels(GapGraph())
    ensures |GapGraph().nodes| == 2 && |GapGraph().nodes[1].outputs| == 2 && Misdirected(GapGraph(), parallel, 1, 1)
  {
    hide WellFormed, AllKernels, DecisionAt, StateBefore;
    GapDecision(parallel);
  }

  lemma GapSharedRun(plan: Plan)
    requires |plan.alloc| == 2 && plan.alloc[0].kind == AllocateOutput && plan.alloc[1] == AllocPlan(Reuse, 0)
    requires |plan.steps| == 2 && ReleasesNothing(plan.steps[0]) && ReleasesNothing(plan.steps[1])
    ensures RunPlan(GapGraph(), plan, Writer(GapCompute), map[]) == Outputs([[6]])
  {
    hide StepFrame;
    var g, ks := GapGraph(), Writer(GapCompute);
    SourceStep(g, plan, GapCompute);
    var f := Frame([Allocated(0), NotAllocated], map[0 := [5]]);
    assert StartFrame(g, map[]).values[0 := Allocated(0)] == f.values;
    GapSecondStep(plan);
    var f' := Frame([Allocated(0), Allocated(0)], map[0 := [6]]);
    assert RunFrom(g, plan, ks, f', 2) == Outputs([[6]]);
    assert RunFrom(g, plan, ks, f, 1) == Outputs([[6]]);
  }

  lemma GapSecondStep(plan: Plan)
    requires |plan.alloc| == 2 && plan.alloc[1] == AllocPlan(Reuse, 0)
    requires |plan.steps| == 2 && ReleasesNothing(plan.steps[1])
    ensures StepFrame(GapGraph(), plan, Writer(GapCompute), Frame([Allocated(0), NotAllocated], map[0 := [5]]), 1) ==
            Ran(Frame([Allocated(0), Allocated(0)], map[0 := [6]]))
  {
    var g, ks := GapGraph(), Writer(GapCompute);
    var f := Frame([Allocated(0), NotAllocated], map[0 := [5]]);
    var ready := Frame([Allocated(0), Allocated(0)], map[0 := [5]]);
    var node, outs: seq<Data> := g.nodes[1], [[5], [6]];
    assert BuffersOf(f, Reads(node)) == [Some(0)];
    assert Look(f.heap, [Some(0)]) == [Some([5])];
    assert AllocateTo(g, plan.alloc, f, node.outputs, outs, 0) == Some(f);
    assert AllocateTo(g, plan.alloc, f, node.outputs, outs, 1) == Some(f);
    assert f.values[1 := Allocated(0)] == ready.values;
    assert Allocation(g, plan.alloc, f, 1, 1) == Some(ready);
    assert AllocateTo(g, plan.alloc, f, node.outputs, outs, 2) == Some(ready);
    RunsTo(g, plan, ks, f, 1, outs, ready);
    assert BuffersOf(ready, node.outputs) == [None, Some(0)];
    assert WriteTo(ready.heap, [None, Some(0)], outs, 1) == ready.heap;
    assert WriteTo(ready.heap, [None, Some(0)], outs, 2) == map[0 := [6]];
  }

  lemma GapReference()
    requires WellFormed(GapGraph()) && Honours(GapGraph(), Writer(GapCompute)) && EnvAt(GapGraph(), map[], 0)
    ensures ReferenceRun(GapGraph(), Writer(GapCompute), map[], 0) == Outputs([[5]])
    ensures RunShapesSound(GapGraph(), Writer(GapCompute), map[], 0)
  {
    hide WellFormed, Honours, ShapesSound, EnvAt;
    var g, ks := GapGraph(), Writer(GapCompute);
    SourceReference(g, GapCompute);
    var env1: Env, env2: Env, outs: seq<Data> := map[0 := [5]], map[0 := [5], 1 := [6]], [[5], [6]];
    assert Reads(g.nodes[1]) == [Some(0)];
    LookOne(env1, 0);
    assert Bind(env1, g.nodes[1].outputs, outs, 0) == env1;
    assert Bind(env1, g.nodes[1].outputs, outs, 1) == env1;
    assert Bind(env1, g.nodes[1].outputs, outs, 2) == env2;
    ReferenceStepIs(g, ks, env1, 1, outs, env2);
    OneEachIsSound(g, env1);
    OneEachIsSound(g, env2);
  }

  /**
   Why missing outputs must trail: the graph output 0 is overwritten by a value that was never declared to share its
   buffer, for every plan the planner makes and with honest kernels.
   */
  lemma GapsGoWrong(parallel: bool, plan: Plan)
    ensures var g, ks := GapGraph(), Writer(GapCompute);
            && WellFormed(g) && AllKernels(g) && Honours(g, ks) && EnvAt(g, map[], 0) && RunShapesSound(g, ks, map[], 0)
            && Misdirected(g, parallel, 1, 1) && ReferenceRun(g, ks, map[], 0) == Outputs([[5]])
            && (Made(g, parallel, plan) ==> |plan.steps| == |g.nodes| && RunPlan(g, plan, ks, map[]) == Outputs([[6]]))
  {
    hide *;
    GapIsWellFormed();
    GapHonours();
    GapMisdirected(parallel);
    GapStart();
    GapReference();
    if Made(GapGraph(), parallel, plan) {
      GapPlan(parallel, plan);
      GapSharedRun(plan);
    }
  }

  lemma GapStart()
    requires WellFormed(GapGraph()) && Defined(GapGraph(), 0) == {}
    ensures EnvAt(GapGraph(), map[], 0) && |GapGraph().nodes| == 2
  {
    hide WellFormed;
  }

  // ----- a tensor that is declared to alias something else

  /** Value 0 is no tensor, and the second node declares that its tensor output aliases it. */
  function SequenceGraph(): Graph {
    Graph([ValueInfo(false, None, 0, 0), Unit(), Unit()], [], [], [],
          [Source(0), Node([Some(0)], [], [Some(1)], Some(KernelDef([(0, 0)], []))),
           Node([Some(1)], [], [Some(2)], Some(KernelDef([], [])))], [2])
  }

  function CopyCompute(n: nat, ins: seq<Option<Data>>): Option<seq<Data>> {
    if n == 0 then Some([[5]]) else Some([First(ins)])
  }

  lemma SequenceDefined()
    ensures var g := SequenceGraph();
            && |g.nodes| == 3 && Existing(g.nodes[0].outputs) == [0] && Existing(g.nodes[1].outputs) == [1]
            && Existing(g.nodes[2].outputs) == [2]
            && Defined(g, 0) == {} && Defined(g, 1) == {0} && Defined(g, 2) == {0, 1} && Defined(g, 3) == {0, 1, 2}
  {
    var g := SequenceGraph();
    assert Existing([Some(0)]) == [0] && Existing([Some(1)]) == [1] && Existing([Some(2)]) == [2];
    hide Existing;
    assert Defined(g, 1) == {0};
    assert Defined(g, 2) == {0, 1};
    assert Defined(g, 3) == {0, 1, 2};
  }

  lemma SequenceIsWellFormed()
    ensures WellFormed(SequenceGraph()) && AllKernels(SequenceGraph()) && GapsTrail(SequenceGraph())
    ensures Defined(SequenceGraph(), 0) == {} && |SequenceGraph().nodes| == 3
  {
    hide Existing, Defined;
    SequenceDefined();
    var g := SequenceGraph();
    assert NodeOk(g, 0);
    assert NodeOk(g, 1);
    assert NodeOk(g, 2);
  }

  lemma SequenceHonours()
    ensures Honours(SequenceGraph(), Writer(CopyCompute))
  {
    WriterHonours(SequenceGraph(), CopyCompute);
  }

  lemma SequenceDecision(parallel: bool)
    requires WellFormed(SequenceGraph()) && AllKernels(SequenceGraph())
    ensures DecisionAt(SequenceGraph(), parallel, 1, 0) == TakeAlias(0)
  {
    var g := SequenceGraph();
    var node := g.nodes[1];
    hide WellFormed, AllKernels, StateBefore;
    PlacedNext(g, parallel, 1, 0);
    assert Existing(node.outputs[..0]) == [];
    assert AliasHit(node, 0, 0);
  }

  lemma SequenceAliases(parallel: bool)
    requires WellFormed(SequenceGraph()) && AllKernels(SequenceGraph())
    ensures |SequenceGraph().nodes| == 3 && |SequenceGraph().nodes[1].outputs| == 1
    ensures AliasesNonTensor(SequenceGraph(), parallel, 1, 0)
  {
    hide WellFormed, AllKernels, DecisionAt;
    SequenceDecision(parallel);
  }

  lemma SequencePlan(parallel: bool, plan: Plan)
    requires WellFormed(SequenceGraph()) && AllKernels(SequenceGraph()) && Made(SequenceGraph(), parallel, plan)
    ensures |plan.alloc| == 3 && !plan.alloc[0].kind.Reuse? && plan.alloc[1] == AllocPlan(Reuse, 0)
    ensures |plan.steps| == 3 && ReleasesNothing(plan.steps[0])
  {
    var g := SequenceGraph();
    hide WellFormed, AllKernels, StateAt, Made, StateBefore;
    SequenceDecision(parallel);
    TakenIsFinal(g, parallel, 1, 0);
    MadeFacts(g, parallel, plan);
    assert RootMap(plan)[0] == Root(plan.alloc, 0) == 0;
    EntryOf(g, parallel, plan, 1);
    FirstReleasesNothing(g, parallel, plan);
  }

  lemma SequenceSharedRun(plan: Plan)
    requires |plan.alloc| == 3 && !plan.alloc[0].kind.Reuse? && plan.alloc[1] == AllocPlan(Reuse, 0)
    requires |plan.steps| == 3 && ReleasesNothing(plan.steps[0])
    ensures RunPlan(SequenceGraph(), plan, Writer(CopyCompute), map[]) == Broken
  {
    hide StepFrame;
    var g, ks := SequenceGraph(), Writer(CopyCompute);
    SourceStep(g, plan, CopyCompute);
    var f := Frame([Allocated(0), NotAllocated, NotAllocated], map[0 := [5]]);
    assert StartFrame(g, map[]).values[0 := Allocated(0)] == f.values;
    SequenceSecondStep(plan);
    assert RunFrom(g, plan, ks, f, 1) == Broken;
  }

  lemma SequenceSecondStep(plan: Plan)
    requires |plan.alloc| == 3 && plan.alloc[1] == AllocPlan(Reuse, 0) && |plan.steps| == 3
    ensures StepFrame(SequenceGraph(), plan, Writer(CopyCompute),
                      Frame([Allocated(0), NotAllocated, NotAllocated], map[0 := [5]]), 1) == Unusable
  {
    var g := SequenceGraph();
    var f := Frame([Allocated(0), NotAllocated, NotAllocated], map[0 := [5]]);
    var node := g.nodes[1];
    assert BuffersOf(f, Reads(node)) == [Some(0)];
    assert Look(f.heap, [Some(0)]) == [Some([5])];
    assert AllocateTo(g, plan.alloc, f, node.outputs, [[5]], 0) == Some(f);
    assert AllocateTo(g, plan.alloc, f, node.outputs, [[5]], 1) == None;
  }

  lemma SequenceReference()
    requires WellFormed(SequenceGraph()) && Honours(SequenceGraph(), Writer(CopyCompute))
             && EnvAt(SequenceGraph(), map[], 0)
    ensures ReferenceRun(SequenceGraph(), Writer(CopyCompute), map[], 0) == Outputs([[5]])
    ensures RunShapesSound(SequenceGraph(), Writer(CopyCompute), map[], 0)
  {
    hide WellFormed, Honours, ShapesSound, EnvAt, Look, Bind;
    var g, ks := SequenceGraph(), Writer(CopyCompute);
    SourceReference(g, CopyCompute);
    var env1: Env, env2: Env, env3: Env := map[0 := [5]], map[0 := [5], 1 := [5]], map[0 := [5], 1 := [5], 2 := [5]];
    assert Reads(g.nodes[1]) == [Some(0)] && Reads(g.nodes[2]) == [Some(1)];
    LookOne(env1, 0);
    BindOne(env1, 1, [5]);
    ReferenceStepIs(g, ks, env1, 1, [[5]], env2);
    LookOne(env2, 1);
    BindOne(env2, 2, [5]);
    ReferenceStepIs(g, ks, env2, 2, [[5]], env3);
    OneEachIsSound(g, env1);
    OneEachIsSound(g, env2);
    OneEachIsSound(g, env3);
  }

  lemma SequenceStart()
    requires WellFormed(SequenceGraph()) && Defined(SequenceGraph(), 0) == {}
    ensures EnvAt(SequenceGraph(), map[], 0)
  {
    hide WellFormed;
  }

  /**
   Why an aliased input must be a tensor: the planner does not look at its type, and the frame refuses to share
   anything but a tensor's buffer, so the run breaks off although the kernels are honest.
   */
  lemma AliasedSequenceGoesWrong(parallel: bool, plan: Plan)
    ensures var g, ks := SequenceGraph(), Writer(CopyCompute);
            && WellFormed(g) && AllKernels(g) && GapsTrail(g) && Honours(g, ks)
            && EnvAt(g, map[], 0) && RunShapesSound(g, ks, map[], 0)
            && AliasesNonTensor(g, parallel, 1, 0) && ReferenceRun(g, ks, map[], 0) == Outputs([[5]])
            && (Made(g, parallel, plan) ==> |plan.steps| == |g.nodes| && RunPlan(g, plan, ks, map[]) == Broken)
  {
    hide *;
    SequenceIsWellFormed();
    SequenceHonours();
    SequenceAliases(parallel);
    SequenceStart();
    SequenceReference();
    if Made(SequenceGraph(), parallel, plan) {
      SequencePlan(parallel, plan);
      SequenceSharedRun(plan);
    }
  }

  // ----- one output overwrites what a later one repeats

  /** Second node: output 0 may overwrite the input, output 1 aliases it, and both are read by the third. */
  function MixedGraph(): Graph {
    Graph([Unit(), Unit(), Unit(), Unit()], [], [], [],
          [Source(0), Node([Some(0)], [], [Some(1), Some(2)], Some(KernelDef([(0, 1)], [(0, 0)]))),
           Node([Some(1), Some(2)], [], [Some(3)], Some(KernelDef([], [])))], [3])
  }

  /** The second node gives the increased input and the input; the third tells whether they differ. */
  function MixedCompute(n: nat, ins: seq<Option<Data>>): Option<seq<Data>> {
    if n == 0 then Some([[5]])
    else if n == 1 then Some([Increased(First(ins)), First(ins)])
    else Some([if |ins| == 2 && ins[0] == ins[1] then [0] else [1]])
  }

  lemma MixedDefined()
    ensures var g := MixedGraph();
            && |g.nodes| == 3 && Existing(g.nodes[0].outputs) == [0] && Existing(g.nodes[1].outputs) == [1, 2]
            && Existing(g.nodes[2].outputs) == [3] && Existing(g.nodes[1].inputs) == [0]
            && Existing(g.nodes[2].inputs) == [1, 2]
            && Defined(g, 0) == {} && Defined(g, 1) == {0} && Defined(g, 2) == {0, 1, 2}
            && Defined(g, 3) == {0, 1, 2, 3}
  {
    var g := MixedGraph();
    var args: seq<Option<nat>> := [Some(1), Some(2)];
    assert args[1..] == [Some(2)];
    assert Existing([Some(2)]) == [2];
    assert Existing(args) == [1, 2];
    assert Existing([Some(0)]) == [0] && Existing([Some(3)]) == [3];
    hide Existing;
    assert Defined(g, 1) == {0};
    assert Defined(g, 2) == {0, 1, 2};
    assert Defined(g, 3) == {0, 1, 2, 3};
  }

  lemma MixedNodes()
    ensures |MixedGraph().nodes| == 3
    ensures NodeOk(MixedGraph(), 0) && NodeOk(MixedGraph(), 1) && NodeOk(MixedGraph(), 2)
  {
    hide Existing, Defined;
    MixedDefined();
  }

  lemma MixedIsWellFormed()
    ensures WellFormed(MixedGraph()) && AllKernels(MixedGraph()) && GapsTrail(MixedGraph())
    ensures Defined(MixedGraph(), 0) == {} && |MixedGraph().nodes| == 3
  {
    hide Existing, Defined, NodeOk;
    MixedDefined();
    MixedNodes();
  }

  lemma MixedHonours()
    ensures Honours(MixedGraph(), Writer(MixedCompute))
  {
    WriterHonours(MixedGraph(), MixedCompute);
  }

  lemma MixedEvents()
    ensures var g := MixedGraph();
            |g.nodes| == 3 && Events(g, 1) == [0] + [1, 2, 1, 2, 3, 3] && Events(g, 2) == [1, 2, 3, 3]
  {
    hide Existing;
    MixedDefined();
    var g := MixedGraph();
    assert Existing(g.nodes[1].implicits) == [] && Existing(g.nodes[2].implicits) == [] by { NoArgs(); }
    assert SourceList(g, 4) == [];
    assert Events(g, 3) == [3];
  }

  lemma NoArgs()
    ensures Existing([]) == []
  {
  }

  /** When the second node is planned, value 0 is at its last use. */
  lemma MixedCounts(parallel: bool)
    requires WellFormed(MixedGraph()) && AllKernels(MixedGraph())
    ensures var s := StateAt(MixedGraph(), parallel, 1);
            && |s.buffer| == |s.useCount| == 4 && s.useCount[0] == 1
            && forall v :: 0 <= v < 4 ==> s.buffer[v] == v
  {
    var g := MixedGraph();
    hide WellFormed, AllKernels, StateAt, Existing, Events, StepsSafe, AllocOk, FreelistOk, Count, Defined;
    MixedDefined();
    MixedEvents();
    AlwaysReady(false, g, parallel, 1);
    var s := StateAt(g, parallel, 1);
    var rest: seq<nat> := [1, 2, 1, 2, 3, 3];
    CountConcat([0], rest, s.buffer, 0);
    CountZero(rest, s.buffer, 0);
    CountOne(s.buffer);
  }

  lemma CountOne(buffer: seq<nat>)
    requires |buffer| > 0 && buffer[0] == 0
    ensures Count([0], buffer, 0) == 1
  {
    assert [0][1..] == [];
  }

  lemma MixedInplace(parallel: bool)
    requires WellFormed(MixedGraph()) && AllKernels(MixedGraph())
    ensures |MixedGraph().nodes[1].outputs| == 2 && DecisionAt(MixedGraph(), parallel, 1, 0) == TakeInplace(0)
  {
    var g := MixedGraph();
    var node := g.nodes[1];
    hide WellFormed, AllKernels, StateBefore, StateAt;
    MixedCounts(parallel);
    PlacedFirst(g, parallel, 1);
    PlacedNext(g, parallel, 1, 0);
    assert Existing(node.outputs[..0]) == [];
    assert !AliasHit(node, 0, 0);
    var s := StateBefore(g, parallel, 1, 0);
    assert InplaceHit(g, s.useCount, s.buffer, node, 0, 0);
  }

  lemma MixedAlias(parallel: bool)
    requires WellFormed(MixedGraph()) && AllKernels(MixedGraph())
    ensures |MixedGraph().nodes[1].outputs| == 2 && DecisionAt(MixedGraph(), parallel, 1, 1) == TakeAlias(0)
  {
    var g := MixedGraph();
    var node := g.nodes[1];
    hide WellFormed, AllKernels, StateBefore, StateAt;
    PlacedNext(g, parallel, 1, 1);
    assert node.outputs[..1] == [Some(1)];
    assert Existing([Some(1)]) == [1];
    assert AliasHit(node, 0, 1);
  }

  /** Both outputs are put into the buffer of the input. */
  lemma MixedOverwrites(parallel: bool)
    requires WellFormed(MixedGraph()) && AllKernels(MixedGraph())
    ensures |MixedGraph().nodes| == 3 && |MixedGraph().nodes[1].outputs| == 2
    ensures Overwrites(MixedGraph(), parallel, 1, 0, 1)
    ensures var root := StateAt(MixedGraph(), parallel, 3).buffer;
            |root| == 4 && root[0] == root[1] == root[2] == 0
  {
    var g := MixedGraph();
    hide WellFormed, AllKernels, StateBefore, StateAt, DecisionAt, Existing, Defined;
    MixedInplace(parallel);
    MixedAlias(parallel);
    TakenIsFinal(g, parallel, 1, 0);
    TakenIsFinal(g, parallel, 1, 1);
    MixedCounts(parallel);
    MixedDefined();
    BufferStays(g, parallel, 1, 3, 0);
  }

  lemma MixedPlan(parallel: bool, plan: Plan)
    requires WellFormed(MixedGraph()) && AllKernels(MixedGraph()) && Made(MixedGraph(), parallel, plan)
    ensures |plan.alloc| == 4 && !plan.alloc[0].kind.Reuse? && plan.alloc[0].kind in {Allocate, AllocateOutput}
    ensures plan.alloc[1] == plan.alloc[2] == AllocPlan(Reuse, 0) && plan.alloc[3].kind == AllocateOutput
    ensures |plan.steps| == 3 && ReleasesNothing(plan.steps[0])
  {
    var g := MixedGraph();
    hide WellFormed, AllKernels, StateAt, Made, StateBefore, Overwrites;
    MixedOverwrites(parallel);
    EntryOf(g, parallel, plan, 0);
    EntryOf(g, parallel, plan, 1);
    EntryOf(g, parallel, plan, 2);
    OutputOwns(g, parallel, plan, 3);
    FirstReleasesNothing(g, parallel, plan);
  }

  /** The buffer is not released before the third node has read it, and the graph output never. */
  lemma MixedReleases(parallel: bool, plan: Plan)
    requires WellFormed(MixedGraph()) && AllKernels(MixedGraph()) && Made(MixedGraph(), parallel, plan)
    ensures |plan.steps| == 3 && ReleasesNothing(plan.steps[1])
    ensures forall k :: plan.steps[2].freeFrom <= k <= plan.steps[2].freeTo ==> NamesOther(plan, k, 4, 3)
  {
    var g := MixedGraph();
    hide WellFormed, AllKernels, StateAt, Made, StateBefore, Overwrites, Existing, Defined, Events;
    MixedOverwrites(parallel);
    MixedDefined();
    MixedEvents();
    OutputOwns(g, parallel, plan, 3);
    var root := StateAt(g, parallel, 3).buffer;
    forall r: nat
      ensures !ReleaseSafe(g, root, 1, r)
    {
      assert 1 in Events(g, 2) && 3 !in Defined(g, 2);
    }
    LaterReleasesNothing(g, parallel, plan, 1);
    RangesSafe(g, parallel, plan);
    assert RangeSafe(g, plan, root, 2);
    forall k | plan.steps[2].freeFrom <= k <= plan.steps[2].freeTo
      ensures NamesOther(plan, k, 4, 3)
    {
      assert InRange(plan.steps[2], k);
      assert 3 in Holds(g);
      HeldIsNeverDead(g, 3, 3);
    }
  }

  lemma MixedSecondStep(plan: Plan)
    requires |plan.alloc| == 4 && plan.alloc[1] == plan.alloc[2] == AllocPlan(Reuse, 0)
    requires |plan.steps| == 3 && ReleasesNothing(plan.steps[1])
    ensures StepFrame(MixedGraph(), plan, Writer(MixedCompute),
                      Frame([Allocated(0), NotAllocated, NotAllocated, NotAllocated], map[0 := [5]]), 1) ==
            Ran(Frame([Allocated(0), Allocated(0), Allocated(0), NotAllocated], map[0 := [5]]))
  {
    var g, ks := MixedGraph(), Writer(MixedCompute);
    var f := Frame([Allocated(0), NotAllocated, NotAllocated, NotAllocated], map[0 := [5]]);
    var ready := Frame([Allocated(0), Allocated(0), Allocated(0), NotAllocated], map[0 := [5]]);
    var node, outs: seq<Data> := g.nodes[1], [[6], [5]];
    assert BuffersOf(f, Reads(node)) == [Some(0)];
    LookOne(f.heap, 0);
    MixedGrants(plan);
    RunsTo(g, plan, ks, f, 1, outs, ready);
    var to: seq<Option<nat>> := [Some(0), Some(0)];
    assert BuffersOf(ready, node.outputs) == to;
    assert WriteTo(ready.heap, to, outs, 0) == map[0 := [5]];
    assert WriteTo(ready.heap, to, outs, 1) == map[0 := [6]];
    assert WriteTo(ready.heap, to, outs, 2) == map[0 := [5]];
  }

  lemma MixedGrants(plan: Plan)
    requires |plan.alloc| == 4 && plan.alloc[1] == plan.alloc[2] == AllocPlan(Reuse, 0)
    ensures var f := Frame([Allocated(0), NotAllocated, NotAllocated, NotAllocated], map[0 := [5]]);
            AllocateTo(MixedGraph(), plan.alloc, f, [Some(1), Some(2)], [[6], [5]], 2) ==
            Some(Frame([Allocated(0), Allocated(0), Allocated(0), NotAllocated], map[0 := [5]]))
  {
    var g := MixedGraph();
    var f0 := Frame([Allocated(0), NotAllocated, NotAllocated, NotAllocated], map[0 := [5]]);
    var f1 := Frame([Allocated(0), Allocated(0), NotAllocated, NotAllocated], map[0 := [5]]);
    var f2 := Frame([Allocated(0), Allocated(0), Allocated(0), NotAllocated], map[0 := [5]]);
    var outputs: seq<Option<nat>>, outs: seq<Data> := [Some(1), Some(2)], [[6], [5]];
    assert f0.values[1 := Allocated(0)] == f1.values && f1.values[2 := Allocated(0)] == f2.values;
    assert Allocation(g, plan.alloc, f0, 1, 1) == Some(f1);
    assert Allocation(g, plan.alloc, f1, 2, 1) == Some(f2);
    hide Allocation;
    assert AllocateTo(g, plan.alloc, f0, outputs, outs, 0) == Some(f0);
    assert AllocateTo(g, plan.alloc, f0, outputs, outs, 1) == Some(f1);
    assert AllocateTo(g, plan.alloc, f0, outputs, outs, 2) == Some(f2);
  }

  /** The third node finds the same contents in both of its inputs. */
  lemma MixedThirdStep(plan: Plan)
    requires |plan.alloc| == 4 && plan.alloc[3].kind == AllocateOutput && |plan.steps| == 3
    requires forall k :: plan.steps[2].freeFrom <= k <= plan.steps[2].freeTo ==> NamesOther(plan, k, 4, 3)
    ensures var r := StepFrame(MixedGraph(), plan, Writer(MixedCompute),
                               Frame([Allocated(0), Allocated(0), Allocated(0), NotAllocated], map[0 := [5]]), 2);
            r.Ran? && Readable(r.frame, 3) && r.frame.values[3].buf == 3 && r.frame.heap[3] == [0]
  {
    var g, ks := MixedGraph(), Writer(MixedCompute);
    var f := Frame([Allocated(0), Allocated(0), Allocated(0), NotAllocated], map[0 := [5]]);
    var ready := Frame([Allocated(0), Allocated(0), Allocated(0), Allocated(3)], map[0 := [5], 3 := [0]]);
    var node, outs: seq<Data> := g.nodes[2], [[0]];
    var from: seq<Option<nat>> := [Some(0), Some(0)];
    assert BuffersOf(f, Reads(node)) == from;
    assert Look(f.heap, from) == [Some([5]), Some([5])];
    assert f.values[3 := Allocated(3)] == ready.values;
    assert Zeros(1) == [0];
    assert Allocation(g, plan.alloc, f, 3, 1) == Some(ready);
    assert AllocateTo(g, plan.alloc, f, node.outputs, outs, 0) == Some(f);
    assert AllocateTo(g, plan.alloc, f, node.outputs, outs, 1) == Some(ready);
    assert BuffersOf(ready, node.outputs) == [Some(3)];
    assert WriteTo(ready.heap, [Some(3)], outs, 0) == ready.heap;
    assert WriteTo(ready.heap, [Some(3)], outs, 1) == ready.heap;
    hide ReleaseRange, AllocateTo, WriteTo;
    ReleaseKeeps(plan, ready, plan.steps[2].freeFrom, plan.steps[2].freeTo, 3);
    assert StepFrame(g, plan, ks, f, 2) == Finish(plan, ks, ready, from, node.outputs, 2);
  }

  lemma MixedSharedRun(plan: Plan)
    requires |plan.alloc| == 4 && plan.alloc[0].kind in {Allocate, AllocateOutput}
             && plan.alloc[3].kind == AllocateOutput
    requires plan.alloc[1] == plan.alloc[2] == AllocPlan(Reuse, 0)
    requires |plan.steps| == 3 && ReleasesNothing(plan.steps[0]) && ReleasesNothing(plan.steps[1])
    requires forall k :: plan.steps[2].freeFrom <= k <= plan.steps[2].freeTo ==> NamesOther(plan, k, 4, 3)
    ensures RunPlan(MixedGraph(), plan, Writer(MixedCompute), map[]) == Outputs([[0]])
  {
    hide StepFrame;
    var g, ks := MixedGraph(), Writer(MixedCompute);
    SourceStep(g, plan, MixedCompute);
    var f1 := Frame([Allocated(0), NotAllocated, NotAllocated, NotAllocated], map[0 := [5]]);
    var f2 := Frame([Allocated(0), Allocated(0), Allocated(0), NotAllocated], map[0 := [5]]);
    assert StartFrame(g, map[]).values[0 := Allocated(0)] == f1.values;
    MixedSecondStep(plan);
    MixedThirdStep(plan);
    var f3 := StepFrame(g, plan, ks, f2, 2).frame;
    assert Fetch(g, f3) == Outputs([[0]]);
    assert RunFrom(g, plan, ks, f3, 3) == Outputs([[0]]);
    assert RunFrom(g, plan, ks, f2, 2) == Outputs([[0]]);
    assert RunFrom(g, plan, ks, f1, 1) == Outputs([[0]]);
  }

  const MIXED_1: Env := map[0 := [5]]
  const MIXED_2: Env := map[0 := [5], 1 := [6], 2 := [5]]
  const MIXED_3: Env := map[0 := [5], 1 := [6], 2 := [5], 3 := [1]]

  /** The second step of the run without sharing. */
  lemma MixedSecondReference()
    requires Honours(MixedGraph(), Writer(MixedCompute)) && EnvAt(MixedGraph(), MIXED_1, 1)
    ensures var g, ks := MixedGraph(), Writer(MixedCompute);
            && EnvAt(g, MIXED_2, 2) && ReferenceRun(g, ks, MIXED_1, 1) == ReferenceRun(g, ks, MIXED_2, 2)
            && (ShapesSound(g, MIXED_1) && RunShapesSound(g, ks, MIXED_2, 2) ==> RunShapesSound(g, ks, MIXED_1, 1))
  {
    hide WellFormed, Honours, ShapesSound, EnvAt, RunShapesSound, ReferenceRun;
    var g, outs: seq<Data> := MixedGraph(), [[6], [5]];
    assert Reads(g.nodes[1]) == [Some(0)];
    LookOne(MIXED_1, 0);
    assert Bind(MIXED_1, g.nodes[1].outputs, outs, 0) == MIXED_1;
    assert Bind(MIXED_1, g.nodes[1].outputs, outs, 1) == map[0 := [5], 1 := [6]];
    assert Bind(MIXED_1, g.nodes[1].outputs, outs, 2) == MIXED_2;
    ReferenceStepIs(g, Writer(MixedCompute), MIXED_1, 1, outs, MIXED_2);
  }

  /** The third step, and the end. */
  lemma MixedThirdReference()
    requires Honours(MixedGraph(), Writer(MixedCompute)) && EnvAt(MixedGraph(), MIXED_2, 2)
    ensures var g, ks := MixedGraph(), Writer(MixedCompute);
            && ReferenceRun(g, ks, MIXED_2, 2) == Outputs([[1]])
            && (ShapesSound(g, MIXED_2) && ShapesSound(g, MIXED_3) ==> RunShapesSound(g, ks, MIXED_2, 2))
  {
    hide WellFormed, Honours, ShapesSound, EnvAt;
    var g := MixedGraph();
    assert Look(MIXED_2, Reads(g.nodes[2])) == [Some([6]), Some([5])];
    hide Look, Bind;
    BindOne(MIXED_2, 3, [1]);
    ReferenceStepIs(g, Writer(MixedCompute), MIXED_2, 2, [[1]], MIXED_3);
  }

  lemma MixedSound()
    ensures var g := MixedGraph(); Units(g)
    ensures var g := MixedGraph(); ShapesSound(g, MIXED_1) && ShapesSound(g, MIXED_2) && ShapesSound(g, MIXED_3)
  {
    var g := MixedGraph();
    assert Units(g);
    hide ShapesSound, Units;
    OneEachIsSound(g, MIXED_1);
    OneEachIsSound(g, MIXED_2);
    OneEachIsSound(g, MIXED_3);
  }

  lemma MixedReference()
    requires WellFormed(MixedGraph()) && Honours(MixedGraph(), Writer(MixedCompute)) && EnvAt(MixedGraph(), map[], 0)
    ensures ReferenceRun(MixedGraph(), Writer(MixedCompute), map[], 0) == Outputs([[1]])
    ensures RunShapesSound(MixedGraph(), Writer(MixedCompute), map[], 0)
  {
    hide WellFormed, Honours, ShapesSound, EnvAt, Units, RunShapesSound, ReferenceRun;
    MixedSound();
    SourceReference(MixedGraph(), MixedCompute);
    MixedSecondReference();
    MixedThirdReference();
  }

  lemma MixedStart()
    requires WellFormed(MixedGraph()) && Defined(MixedGraph(), 0) == {}
    ensures EnvAt(MixedGraph(), map[], 0)
  {
    hide WellFormed;
  }

  /**
   Why no output may overwrite what a later one aliases: both outputs of the second node are put into the same buffer,
   for every plan the planner makes, and the third node sees no difference between them although the kernels are honest.
   */
  lemma MixedPairsGoWrong(parallel: bool, plan: Plan)
    ensures var g, ks := MixedGraph(), Writer(MixedCompute);
            && WellFormed(g) && AllKernels(g) && GapsTrail(g) && Honours(g, ks)
            && EnvAt(g, map[], 0) && RunShapesSound(g, ks, map[], 0)
            && Overwrites(g, parallel, 1, 0, 1) && ReferenceRun(g, ks, map[], 0) == Outputs([[1]])
            && (Made(g, parallel, plan) ==> |plan.steps| == |g.nodes| && RunPlan(g, plan, ks, map[]) == Outputs([[0]]))
  {
    hide *;
    MixedIsWellFormed();
    MixedHonours();
    MixedOverwrites(parallel);
    MixedStart();
    MixedReference();
    if Made(MixedGraph(), parallel, plan) {
      MixedPlan(parallel, plan);
      MixedReleases(parallel, plan);
      MixedSharedRun(plan);
    }
  }
}
