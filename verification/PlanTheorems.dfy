/** Planner and executor together. */
module PlanTheorems {
  import opened Wrappers
  import opened GraphModel
  import opened PlanSafety
  import opened PlannerInvariant
  import opened PlannerSpec
  import opened PlannerRun
  import opened PlannerExact
  import opened Planner
  import opened Kernels
  import opened SequentialExecutor

  /**
   Planning a graph and running the plan gives what the run without any sharing gives, for every well-formed graph
   with a clean walk and all kernels that honour their declarations; no plan exists when a kernel is missing.
   */
  method PlanAndExecute(g: Graph, parallel: bool, ks: KernelSet, feeds: Env) returns (outcome: Option<Outcome>)
    requires WellFormed(g) && Honours(g, ks)
    requires EnvAt(g, feeds, 0) && RunShapesSound(g, ks, feeds, 0)
    ensures outcome.Some? <==> AllKernels(g)
    ensures outcome.Some? && Clean(g, parallel) ==> outcome.value == ReferenceRun(g, ks, feeds, 0)
    ensures SharableGraph(g) ==> outcome == Some(ReferenceRun(g, ks, feeds, 0))
  {
    hide WellFormed, SharableGraph, Honours, EnvAt, RunShapesSound, ReferenceRun, SafePlan, AllKernels, Clean,
      StateAt;
    if SharableGraph(g) { SharableIsClean(g, parallel); }
    var planner := new PlannerImpl(g, parallel);
    var plan := planner.CreatePlan();
    if plan.None? { return None; }
    MadeSizes(g, parallel, plan.value);
    var result := Execute(g, plan.value, ks, feeds);
    outcome := Some(result);
  }

  lemma MadeSizes(g: Graph, parallel: bool, plan: Plan)
    requires WellFormed(g) && AllKernels(g) && Made(g, parallel, plan)
    ensures |plan.alloc| == |g.values| && |plan.steps| == |g.nodes|
  {
    MadeFacts(g, parallel, plan);
    hide WellFormed, AllKernels, StateAt;
  }

  /** The i-th freed buffer is released after some step. */
  ghost predicate EverReleased(plan: Plan, i: int) {
    exists n :: 0 <= n < |plan.steps| && InRange(plan.steps[n], i)
  }

  /**
   Of the buffers that become free, exactly those that do so after the first step are released
   during the run, each of them once.
   */
  lemma ReleasedExactlyOnce(g: Graph, plan: Plan, freelist: seq<FreeBufferInfo>, i: nat)
    requires Released(g, plan, freelist) && i < |freelist|
    requires forall k :: 0 <= k < |freelist| ==> FromOldest(freelist, k).deallocatePoint < |g.nodes|
    ensures EverReleased(plan, i) <==> FromOldest(freelist, i).deallocatePoint > 0
    ensures forall m, n :: 0 <= m < n < |plan.steps| ==> !(InRange(plan.steps[m], i) && InRange(plan.steps[n], i))
  {
    var at := FromOldest(freelist, i).deallocatePoint;
    forall n | 0 <= n < |plan.steps|
      ensures InRange(plan.steps[n], i) <==> n > 0 && at == n
    {
      assert RangeExact(freelist, |freelist|, plan.steps[n], n);
    }
    assert at > 0 ==> InRange(plan.steps[at], i);
  }
}
