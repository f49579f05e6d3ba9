/** One decision of the static planner at a time: where it stands before and after. */
module PlannerSteps {
  import opened Wrappers
  import opened GraphModel
  import opened PlanSafety
  import opened PlannerInvariant
  import opened PlannerSpec
  import opened Placement

  /** The plan table agrees with the buffer map, shares only tensors and marks the graph outputs. */
  ghost predicate AllocOk(good: bool, g: Graph, alloc: seq<AllocPlan>, buffer: seq<nat>, defd: set<nat>) {
    && |alloc| == |buffer| == |g.values|
    && (forall v :: 0 <= v < |alloc| ==> Root(alloc, v) == buffer[v])
    && (forall v :: 0 <= v < |alloc| && alloc[v].kind.Reuse? ==> g.values[v].isTensor && buffer[v] != v)
    && (forall v :: 0 <= v < |alloc| && !IsSource(g, v) ==> alloc[v].kind in {Allocate, AllocateOutput, Reuse})
    && (forall v :: v in defd && 0 <= v < |alloc| && !IsSource(g, v) ==>
          (alloc[v].kind.AllocateOutput? <==> v in g.outputs))
    && (good ==> forall v :: 0 <= v < |alloc| && alloc[v].kind.Reuse? && buffer[v] < |g.values| ==>
          g.values[buffer[v]].isTensor)
  }

  lemma AllocShare(good: bool, g: Graph, alloc: seq<AllocPlan>, buffer: seq<nat>, defd: set<nat>, x: nat, o: nat)
    requires AllocOk(good, g, alloc, buffer, defd) && x < |buffer| && o < |buffer| && buffer[x] < |buffer|
             && buffer[x] != o
    requires g.values[o].isTensor && !IsSource(g, o) && (good ==> g.values[x].isTensor) && o !in g.outputs
    ensures AllocOk(good, g, alloc[o := AllocPlan(Reuse, buffer[x])], buffer[o := buffer[x]], defd + {o})
  {
    assert buffer[x] == Root(alloc, x);
  }

  lemma AllocOwn(good: bool, g: Graph, alloc: seq<AllocPlan>, buffer: seq<nat>, defd: set<nat>, o: nat, kind: AllocKind)
    requires AllocOk(good, g, alloc, buffer, defd) && o < |buffer| && buffer[o] == o
    requires kind == if o in g.outputs then AllocateOutput else Allocate
    ensures AllocOk(good, g, alloc[o := alloc[o].(kind := kind)], buffer, defd + {o})
  {
  }

  /** All steps before pc are placed safely, provided the graph is one that may share. */
  ghost predicate StepsSafe(good: bool, g: Graph, buffer: seq<nat>, pc: nat) {
    && Covers(g, buffer) && pc <= |g.nodes|
    && (good ==> forall p :: 0 <= p < pc ==> StepSafe(g, buffer, p, |g.nodes[p].outputs|))
  }

  lemma StepsSafeFrame(good: bool, g: Graph, buffer: seq<nat>, pc: nat, o: nat, r: nat)
    requires WellFormed(g) && StepsSafe(good, g, buffer, pc) && o < |buffer| && o !in Defined(g, pc)
    ensures StepsSafe(good, g, buffer[o := r], pc)
  {
    if good {
      forall p | 0 <= p < pc
        ensures StepSafe(g, buffer[o := r], p, |g.nodes[p].outputs|)
      {
        EarlierStepStays(g, buffer, pc, p, o, r);
      }
    }
  }

  lemma EarlierStepStays(g: Graph, buffer: seq<nat>, pc: nat, p: nat, o: nat, r: nat)
    requires WellFormed(g) && Covers(g, buffer) && p < pc <= |g.nodes|
    requires o < |buffer| && o !in Defined(g, pc) && StepSafe(g, buffer, p, |g.nodes[p].outputs|)
    ensures StepSafe(g, buffer[o := r], p, |g.nodes[p].outputs|)
  {
    hide WellFormed, StepSafe, SharersDead;
    DefinedGrows(g, p, pc);
    DefinedGrows(g, p + 1, pc);
    var outs := g.nodes[p].outputs;
    forall j | 0 <= j < |outs| && outs[j].Some?
      ensures outs[j].value != o
    {
      assert outs[j] in outs;
      assert outs[j].value in Existing(outs);
    }
    StepSafeFrame(g, buffer, buffer[o := r], p, |outs|);
  }

  /** The planner is about to place the output at position j of step pc. */
  ghost predicate Placing(good: bool, g: Graph, useCount: seq<int>, buffer: seq<nat>, freelist: seq<FreeBufferInfo>,
                          alloc: seq<AllocPlan>, pc: nat, j: nat) {
    && Before(g, useCount, buffer, freelist, pc, j) && AllocOk(good, g, alloc, buffer, Prior(g, pc, j))
    && StepsSafe(good, g, buffer, pc) && (good ==> StepSafe(g, buffer, pc, j))
  }

  /** The planner has placed all outputs of step pc and still has to release `events`. */
  ghost predicate Releasing(good: bool, g: Graph, useCount: seq<int>, buffer: seq<nat>, freelist: seq<FreeBufferInfo>,
                            alloc: seq<AllocPlan>, pc: nat, events: seq<nat>) {
    && WellFormed(g) && pc < |g.nodes|
    && Invariant(g, useCount, buffer, freelist, Defined(g, pc + 1), events, pc)
    && AllocOk(good, g, alloc, buffer, Defined(g, pc + 1))
    && StepsSafe(good, g, buffer, pc + 1)
  }

  /** The planner is about to start step pc, or has finished when there is none. */
  ghost predicate Ready(good: bool, g: Graph, useCount: seq<int>, buffer: seq<nat>, freelist: seq<FreeBufferInfo>,
                        alloc: seq<AllocPlan>, pc: nat) {
    && WellFormed(g) && pc <= |g.nodes|
    && Invariant(g, useCount, buffer, freelist, Defined(g, pc), Events(g, pc), pc - 1)
    && AllocOk(good, g, alloc, buffer, Defined(g, pc))
    && StepsSafe(good, g, buffer, pc)
  }

  lemma Sizes(good: bool, g: Graph, useCount: seq<int>, buffer: seq<nat>, freelist: seq<FreeBufferInfo>,
              alloc: seq<AllocPlan>, pc: nat, j: nat)
    requires Placing(good, g, useCount, buffer, freelist, alloc, pc, j)
    ensures WellFormed(g) && Covers(g, buffer)
    ensures pc < |g.nodes| && j <= |g.nodes[pc].outputs| && NodeInRange(g, g.nodes[pc])
    ensures |useCount| == |buffer| == |alloc| == |g.values|
    ensures forall v :: 0 <= v < |buffer| ==> buffer[v] < |buffer|
    ensures forall i :: 0 <= i < |freelist| ==> freelist[i].mlValue < |g.values|
    ensures forall i :: 0 <= i < |g.nodes[pc].outputs| && g.nodes[pc].outputs[i].Some? ==>
              g.nodes[pc].outputs[i].value < |g.values|
  {
    assert NodeOk(g, pc);
    forall i | 0 <= i < |freelist|
      ensures freelist[i].mlValue < |g.values|
    {
      assert EntryOk(g, useCount, buffer, freelist[i]);
    }
  }

  lemma PlacingParts(good: bool, g: Graph, useCount: seq<int>, buffer: seq<nat>, freelist: seq<FreeBufferInfo>,
                     alloc: seq<AllocPlan>, pc: nat, j: nat)
    requires WellFormed(g) && pc < |g.nodes| && j <= |g.nodes[pc].outputs| && Covers(g, buffer)
    ensures Placing(good, g, useCount, buffer, freelist, alloc, pc, j) <==>
            && Invariant(g, useCount, buffer, freelist, Prior(g, pc, j), Events(g, pc), pc - 1)
            && AllocOk(good, g, alloc, buffer, Prior(g, pc, j)) && StepsSafe(good, g, buffer, pc)
            && (good ==> StepSafe(g, buffer, pc, j))
  {
    hide WellFormed, Invariant, AllocOk, StepsSafe, StepSafe, Prior, Events;
  }

  lemma SkipMissing(good: bool, g: Graph, useCount: seq<int>, buffer: seq<nat>, freelist: seq<FreeBufferInfo>,
                    alloc: seq<AllocPlan>, pc: nat, j: nat)
    requires Placing(good, g, useCount, buffer, freelist, alloc, pc, j)
    requires j < |g.nodes[pc].outputs| && g.nodes[pc].outputs[j].None?
    ensures Placing(good, g, useCount, buffer, freelist, alloc, pc, j + 1)
  {
    PriorStep(g, pc, j);
    hide Invariant, AllocOk, StepsSafe;
    if good { ExtendStep(g, buffer, pc, j); }
  }

  lemma PlaceOwn(good: bool, g: Graph, useCount: seq<int>, buffer: seq<nat>, freelist: seq<FreeBufferInfo>,
                 alloc: seq<AllocPlan>, pc: nat, j: nat, kind: AllocKind)
    requires Placing(good, g, useCount, buffer, freelist, alloc, pc, j)
    requires j < |g.nodes[pc].outputs| && g.nodes[pc].outputs[j].Some?
    requires kind == if g.nodes[pc].outputs[j].value in g.outputs then AllocateOutput else Allocate
    ensures var o := g.nodes[pc].outputs[j].value;
            && o < |alloc|
            && Placing(good, g, useCount, buffer, freelist, alloc[o := alloc[o].(kind := kind)], pc, j + 1)
  {
    var o := g.nodes[pc].outputs[j].value;
    PriorStep(g, pc, j);
    assert o < |buffer| && buffer[o] == o;
    hide Invariant, AllocOk, StepsSafe, StepSafe;
    KeepOwnBuffer(g, useCount, buffer, freelist, Prior(g, pc, j), Events(g, pc), pc - 1, o);
    AllocOwn(good, g, alloc, buffer, Prior(g, pc, j), o, kind);
    if good { PlaceFresh(g, useCount, buffer, freelist, pc, j); }
  }

  lemma InputIsRead(g: Graph, pc: nat, i: int)
    requires WellFormed(g) && pc < |g.nodes| && InputAt(g.nodes[pc], i).Some?
    ensures var x := InputAt(g.nodes[pc], i).value;
            x < |g.values| && x in Defined(g, pc) && x in Existing(g.nodes[pc].inputs) && x in Events(g, pc)
  {
    assert NodeOk(g, pc);
    assert Some(InputAt(g.nodes[pc], i).value) in g.nodes[pc].inputs;
  }

  lemma InputNotListed(g: Graph, useCount: seq<int>, buffer: seq<nat>, freelist: seq<FreeBufferInfo>, pc: nat, j: nat,
                       x: nat)
    requires Before(g, useCount, buffer, freelist, pc, j)
    requires x < |g.values| && x in Defined(g, pc) && x in Existing(g.nodes[pc].inputs)
    ensures Without(freelist, freelist, buffer[x])
    ensures buffer[x] < |buffer| && buffer[x] in Prior(g, pc, j) && buffer[buffer[x]] == buffer[x]
  {
    assert x in Events(g, pc);
    FreeExactlyWhenUnused(g, useCount, buffer, freelist, Prior(g, pc, j), Events(g, pc), pc - 1, buffer[x]);
  }

  /** Buffer r, not on the freelist any more, is shared with the output at position j. */
  lemma ShareStep(good: bool, g: Graph, useCount: seq<int>, buffer: seq<nat>, freelist: seq<FreeBufferInfo>,
                  freelist': seq<FreeBufferInfo>, alloc: seq<AllocPlan>, pc: nat, j: nat, x: nat)
    requires Placing(good, g, useCount, buffer, freelist, alloc, pc, j)
    requires j < |g.nodes[pc].outputs| && g.nodes[pc].outputs[j].Some?
    requires var o := g.nodes[pc].outputs[j].value; o < |g.values| && g.values[o].isTensor && o !in g.outputs
    requires x < |buffer| && buffer[x] < |buffer| && buffer[buffer[x]] == buffer[x] && buffer[x] in Prior(g, pc, j)
    requires Without(freelist, freelist', buffer[x]) && (good ==> g.values[x].isTensor)
    requires good ==> StepSafe(g, buffer[g.nodes[pc].outputs[j].value := buffer[x]], pc, j + 1)
    ensures |useCount| == |buffer| == |alloc| == |g.values|
    ensures var o, r := g.nodes[pc].outputs[j].value, buffer[x];
            Placing(good, g, useCount[r := useCount[r] + useCount[o]], buffer[o := r], freelist',
                    alloc[o := AllocPlan(Reuse, r)], pc, j + 1)
  {
    hide *;
    Sizes(good, g, useCount, buffer, freelist, alloc, pc, j);
    var o, r := g.nodes[pc].outputs[j].value, buffer[x];
    PriorStep(g, pc, j);
    PlacingParts(good, g, useCount, buffer, freelist, alloc, pc, j);
    PriorCovers(g, pc, j);
    ShareBuffer(g, useCount, buffer, freelist, freelist', Prior(g, pc, j), Events(g, pc), pc - 1, o, r);
    AllocShare(good, g, alloc, buffer, Prior(g, pc, j), x, o);
    StepsSafeFrame(good, g, buffer, pc, o, r);
    CoversAny(g, buffer, o, r);
    PlacingParts(good, g, useCount[r := useCount[r] + useCount[o]], buffer[o := r], freelist',
                 alloc[o := AllocPlan(Reuse, r)], pc, j + 1);
  }

  lemma ShareInput(good: bool, g: Graph, useCount: seq<int>, buffer: seq<nat>, freelist: seq<FreeBufferInfo>,
                   alloc: seq<AllocPlan>, pc: nat, j: nat, x: nat)
    requires Placing(good, g, useCount, buffer, freelist, alloc, pc, j)
    requires j < |g.nodes[pc].outputs| && g.nodes[pc].outputs[j].Some?
    requires var o := g.nodes[pc].outputs[j].value; o < |g.values| && g.values[o].isTensor && o !in g.outputs
    requires x < |g.values| == |buffer| && x in Defined(g, pc) && x in Existing(g.nodes[pc].inputs)
    requires good ==> g.values[x].isTensor && Covers(g, buffer)
                      && StepSafe(g, buffer[g.nodes[pc].outputs[j].value := buffer[x]], pc, j + 1)
    ensures |useCount| == |buffer| == |alloc| == |g.values| && buffer[x] < |buffer|
    ensures var o, r := g.nodes[pc].outputs[j].value, buffer[x];
            Placing(good, g, useCount[r := useCount[r] + useCount[o]], buffer[o := r], freelist,
                    alloc[o := AllocPlan(Reuse, r)], pc, j + 1)
  {
    Sizes(good, g, useCount, buffer, freelist, alloc, pc, j);
    assert Before(g, useCount, buffer, freelist, pc, j);
    hide Invariant, AllocOk, StepsSafe, StepSafe, Without, Prior, WellFormed;
    InputNotListed(g, useCount, buffer, freelist, pc, j, x);
    ShareStep(good, g, useCount, buffer, freelist, freelist, alloc, pc, j, x);
  }

  lemma ShareFree(good: bool, g: Graph, useCount: seq<int>, buffer: seq<nat>, freelist: seq<FreeBufferInfo>,
                  freelist': seq<FreeBufferInfo>, alloc: seq<AllocPlan>, pc: nat, j: nat, r: nat)
    requires Placing(good, g, useCount, buffer, freelist, alloc, pc, j)
    requires j < |g.nodes[pc].outputs| && g.nodes[pc].outputs[j].Some?
    requires var o := g.nodes[pc].outputs[j].value; o < |g.values| && g.values[o].isTensor && o !in g.outputs
    requires Listed(freelist, r) && Without(freelist, freelist', r)
    requires r < |g.values| && SameSize(g, r, g.nodes[pc].outputs[j].value)
    ensures |useCount| == |buffer| == |alloc| == |g.values| && buffer[r] == r
    ensures var o := g.nodes[pc].outputs[j].value;
            Placing(good, g, useCount[r := useCount[r] + useCount[o]], buffer[o := r], freelist',
                    alloc[o := AllocPlan(Reuse, r)], pc, j + 1)
  {
    hide *;
    Sizes(good, g, useCount, buffer, freelist, alloc, pc, j);
    PlacingParts(good, g, useCount, buffer, freelist, alloc, pc, j);
    SameSizeIsTensor(g, r, g.nodes[pc].outputs[j].value);
    PlacingBefore(good, g, useCount, buffer, freelist, alloc, pc, j);
    ListedIsDead(g, useCount, buffer, freelist, pc, j, r);
    PriorCovers(g, pc, j);
    if good { PlaceRecycled(g, useCount, buffer, freelist, pc, j, r); }
    ShareStep(good, g, useCount, buffer, freelist, freelist', alloc, pc, j, r);
  }

  lemma SameSizeIsTensor(g: Graph, u: nat, v: nat)
    requires u < |g.values| && v < |g.values| && SameSize(g, u, v)
    ensures g.values[u].isTensor
  {
  }

  lemma PlacingBefore(good: bool, g: Graph, useCount: seq<int>, buffer: seq<nat>, freelist: seq<FreeBufferInfo>,
                      alloc: seq<AllocPlan>, pc: nat, j: nat)
    requires Placing(good, g, useCount, buffer, freelist, alloc, pc, j)
    ensures Before(g, useCount, buffer, freelist, pc, j)
  {
    hide Before, AllocOk, StepsSafe, StepSafe;
  }

  lemma StartStep(good: bool, g: Graph, useCount: seq<int>, buffer: seq<nat>, freelist: seq<FreeBufferInfo>,
                  alloc: seq<AllocPlan>, pc: nat)
    requires Ready(good, g, useCount, buffer, freelist, alloc, pc) && pc < |g.nodes|
    ensures Placing(good, g, useCount, buffer, freelist, alloc, pc, 0)
  {
    PriorAll(g, pc);
    hide Invariant, AllocOk, StepsSafe;
  }

  lemma AllPlaced(good: bool, g: Graph, useCount: seq<int>, buffer: seq<nat>, freelist: seq<FreeBufferInfo>,
                  alloc: seq<AllocPlan>, pc: nat)
    requires pc < |g.nodes| && Placing(good, g, useCount, buffer, freelist, alloc, pc, |g.nodes[pc].outputs|)
    ensures Releasing(good, g, useCount, buffer, freelist, alloc, pc, Touched(g.nodes[pc]) + Events(g, pc + 1))
  {
    hide AllocOk, StepSafe, Prior;
    assert StepsSafe(good, g, buffer, pc + 1) by { hide Invariant; }
    assert Invariant(g, useCount, buffer, freelist, Prior(g, pc, |g.nodes[pc].outputs|), Events(g, pc), pc) by {
      hide StepsSafe, WellFormed, Events, BufferOk, CountsExact, UnusedListed, Ordered, EntryOk;
    }
    hide StepsSafe, Invariant, WellFormed;
    PriorAll(g, pc);
  }

  lemma ReleasingParts(good: bool, g: Graph, useCount: seq<int>, buffer: seq<nat>, freelist: seq<FreeBufferInfo>,
                       alloc: seq<AllocPlan>, pc: nat, events: seq<nat>)
    ensures Releasing(good, g, useCount, buffer, freelist, alloc, pc, events) <==>
            && WellFormed(g) && pc < |g.nodes|
            && Invariant(g, useCount, buffer, freelist, Defined(g, pc + 1), events, pc)
            && AllocOk(good, g, alloc, buffer, Defined(g, pc + 1)) && StepsSafe(good, g, buffer, pc + 1)
  {
    hide WellFormed, Invariant, AllocOk, StepsSafe, Defined;
  }

  lemma InvariantSizes(g: Graph, useCount: seq<int>, buffer: seq<nat>, freelist: seq<FreeBufferInfo>,
                       defd: set<nat>, events: seq<nat>, last: int)
    requires Invariant(g, useCount, buffer, freelist, defd, events, last)
    ensures |useCount| == |buffer| == |g.values|
    ensures forall v :: 0 <= v < |buffer| ==> buffer[v] < |buffer|
  {
  }

  lemma ReleaseOne(good: bool, g: Graph, useCount: seq<int>, buffer: seq<nat>, freelist: seq<FreeBufferInfo>,
                   alloc: seq<AllocPlan>, pc: nat, v: nat, rest: seq<nat>)
    requires Releasing(good, g, useCount, buffer, freelist, alloc, pc, [v] + rest)
    requires v in Touched(g.nodes[pc]) && forall w :: w in Events(g, pc + 1) ==> w in rest
    ensures v < |buffer| && buffer[v] < |useCount|
    ensures var r := buffer[v];
            var counts := useCount[r := useCount[r] - 1];
            var freelist' := if counts[r] == 0 then [FreeBufferInfo(r, pc)] + freelist else freelist;
            Releasing(good, g, counts, buffer, freelist', alloc, pc, rest)
  {
    hide *;
    var events := [v] + rest;
    ReleasingParts(good, g, useCount, buffer, freelist, alloc, pc, events);
    TouchedInRange(g, pc, v);
    InvariantSizes(g, useCount, buffer, freelist, Defined(g, pc + 1), events, pc);
    assert events[0] == v && events[1..] == rest;
    ReleaseEvent(g, useCount, buffer, freelist, events, pc);
    var r := buffer[v];
    var counts := useCount[r := useCount[r] - 1];
    var freelist' := if counts[r] == 0 then [FreeBufferInfo(r, pc)] + freelist else freelist;
    ReleasingParts(good, g, counts, buffer, freelist', alloc, pc, rest);
  }
}
