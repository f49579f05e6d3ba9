/** The static planner: use counts, buffer sharing along the topological order, release ranges. */
module Planner {
  import opened Wrappers
  import opened Counting
  import opened GraphModel
  import opened PlanSafety
  import opened PlannerInvariant
  import opened PlannerSpec
  import opened Placement
  import opened PlannerSteps
  import opened PlannerRun
  import opened PlannerExact

  /** The events of the steps before pc. */
  ghost function Processed(g: Graph, pc: nat): seq<nat>
    requires pc <= |g.nodes|
  {
    if pc == 0 then [] else Processed(g, pc - 1) + Touched(g.nodes[pc - 1])
  }

  lemma {:induction false} ProcessedThenRest(g: Graph, pc: nat, v: nat)
    requires pc <= |g.nodes|
    ensures CountOf(Events(g, 0), v) == CountOf(Processed(g, pc), v) + CountOf(Events(g, pc), v)
  {
    if pc > 0 {
      ProcessedThenRest(g, pc - 1, v);
      CountOfConcat(Processed(g, pc - 1), Touched(g.nodes[pc - 1]), v);
      CountOfConcat(Touched(g.nodes[pc - 1]), Events(g, pc), v);
    }
  }

  lemma {:induction false} ProcessedIsDefined(g: Graph, pc: nat, v: nat)
    requires WellFormed(g) && pc <= |g.nodes| && v in Processed(g, pc)
    ensures v in Defined(g, pc)
  {
    if v in Processed(g, pc - 1) {
      ProcessedIsDefined(g, pc - 1, v);
    } else {
      TouchedInRange(g, pc - 1, v);
    }
  }

  lemma {:induction false} SourceListOnce(g: Graph, n: nat, v: nat)
    ensures CountOf(SourceList(g, n), v) == if v < n && IsSource(g, v) then 1 else 0
  {
    if n > 0 {
      SourceListOnce(g, n - 1, v);
      if IsSource(g, n - 1) { CountOfConcat(SourceList(g, n - 1), [n - 1], v); }
    }
  }

  /** Use counts when the steps before pc have been counted. */
  ghost predicate Counted(g: Graph, useCount: seq<int>, buffer: seq<nat>, pc: nat)
    requires pc <= |g.nodes|
  {
    && |useCount| == |buffer| == |g.values|
    && (forall v :: 0 <= v < |useCount| ==>
          useCount[v] == (if IsSource(g, v) then 1 else 0) + CountOf(Processed(g, pc), v))
    && (forall v :: v in Defined(g, pc) && v < |buffer| ==> buffer[v] == v)
  }

  lemma CountedStep(g: Graph, before: seq<int>, useCount: seq<int>, buffer: seq<nat>, buffer': seq<nat>, pc: nat)
    requires pc < |g.nodes| && Counted(g, before, buffer, pc) && |useCount| == |buffer'| == |g.values|
    requires forall v :: 0 <= v < |useCount| ==> useCount[v] == before[v] + CountOf(Touched(g.nodes[pc]), v)
    requires forall v :: 0 <= v < |buffer| ==>
               buffer'[v] == if v in Existing(g.nodes[pc].outputs) then v else buffer[v]
    ensures Counted(g, useCount, buffer', pc + 1)
  {
    forall v | 0 <= v < |useCount|
      ensures useCount[v] == (if IsSource(g, v) then 1 else 0) + CountOf(Processed(g, pc + 1), v)
    {
      CountOfConcat(Processed(g, pc), Touched(g.nodes[pc]), v);
    }
  }

  /** With all uses counted every value is in its own buffer, with all its events to come. */
  lemma CountedIsInitial(g: Graph, before: seq<int>, useCount: seq<int>, buffer: seq<nat>)
    requires WellFormed(g) && Counted(g, before, buffer, |g.nodes|) && |useCount| == |g.values|
    requires forall v :: 0 <= v < |useCount| ==> useCount[v] == before[v] + CountOf(g.outputs, v)
    ensures useCount == InitialState(g).useCount && buffer == InitialState(g).buffer
  {
    forall v | 0 <= v < |buffer|
      ensures buffer[v] == v && useCount[v] == CountOf(Events(g, 0), v)
    {
      assert v in Defined(g, |g.nodes|);
      ProcessedThenRest(g, |g.nodes|, v);
      CountOfConcat(SourceList(g, |g.values|), g.outputs, v);
      SourceListOnce(g, |g.values|, v);
    }
  }

  /** The freelist read from its oldest entry on. */
  function FromOldest(freelist: seq<FreeBufferInfo>, i: nat): FreeBufferInfo
    requires i < |freelist|
  {
    freelist[|freelist| - 1 - i]
  }

  /** The range of step n is exactly the entries that become free there; step 0 never gets one. */
  ghost predicate RangeExact(freelist: seq<FreeBufferInfo>, done: nat, step: StepPlan, n: nat)
    requires done <= |freelist|
  {
    forall i :: InRange(step, i) <==> 0 <= i < done && n > 0 && FromOldest(freelist, i).deallocatePoint == n
  }

  /** The step whose entries are being copied: they start at freeFrom, freeTo is still to be set. */
  ghost predicate RangeOpen(freelist: seq<FreeBufferInfo>, done: nat, step: StepPlan, n: nat)
    requires done <= |freelist|
  {
    && step.freeFrom < done
    && forall i :: 0 <= i < done ==> (step.freeFrom <= i <==> FromOldest(freelist, i).deallocatePoint == n)
  }

  lemma CloseRange(freelist: seq<FreeBufferInfo>, done: nat, step: StepPlan, n: nat)
    requires done <= |freelist| && n > 0 && RangeOpen(freelist, done, step, n) && 0 <= step.freeFrom
    ensures RangeExact(freelist, done, step.(freeTo := done - 1), n)
  {
  }

  lemma ExactGrows(freelist: seq<FreeBufferInfo>, done: nat, step: StepPlan, n: nat)
    requires done < |freelist| && RangeExact(freelist, done, step, n)
    requires n == 0 || FromOldest(freelist, done).deallocatePoint != n
    ensures RangeExact(freelist, done + 1, step, n)
  {
  }

  lemma OldestFirst(freelist: seq<FreeBufferInfo>, i: nat, j: nat)
    requires Ordered(freelist) && i < j < |freelist|
    ensures FromOldest(freelist, i).deallocatePoint <= FromOldest(freelist, j).deallocatePoint
  {
  }

  lemma OpenRange(freelist: seq<FreeBufferInfo>, done: nat, step: StepPlan)
    requires Ordered(freelist) && done < |freelist|
    requires done > 0 ==> FromOldest(freelist, done - 1).deallocatePoint != FromOldest(freelist, done).deallocatePoint
    ensures RangeOpen(freelist, done + 1, step.(freeFrom := done), FromOldest(freelist, done).deallocatePoint)
  {
    forall i | 0 <= i < done
      ensures FromOldest(freelist, i).deallocatePoint != FromOldest(freelist, done).deallocatePoint
    {
      OldestFirst(freelist, done - 1, done);
      if i < done - 1 { OldestFirst(freelist, i, done - 1); }
    }
  }

  class PlannerImpl {
    const g: Graph
    const parallel: bool

    // per value: static reference count and the value whose buffer it lives in
    var useCount: seq<int>
    var buffer: seq<nat>
    // buffers free to be reused, most recently freed first
    var freelist: seq<FreeBufferInfo>
    // the plan under construction
    var alloc: seq<AllocPlan>
    var steps: seq<StepPlan>
    var toBeFreed: seq<nat>

    constructor (g: Graph, parallel: bool)
      ensures this.g == g && this.parallel == parallel && freelist == [] && toBeFreed == []
      ensures |useCount| == |buffer| == |alloc| == |g.values| && |steps| == |g.nodes|
      ensures forall v ::
                0 <= v < |g.values| ==> useCount[v] == 0 && buffer[v] == 0 && alloc[v] == AllocPlan(Allocate, 0)
      ensures forall n :: 0 <= n < |g.nodes| ==> steps[n] == StepPlan(1, 0)
    {
      this.g, this.parallel := g, parallel;
      freelist, toBeFreed := [], [];
      useCount, buffer := seq(|g.values|, _ => 0), seq(|g.values|, _ => 0);
      alloc := seq(|g.values|, _ => AllocPlan(Allocate, 0));
      steps := seq(|g.nodes|, _ => StepPlan(1, 0));
    }

    ghost function State(): PlanState
      reads this
    {
      PlanState(useCount, buffer, freelist, alloc)
    }

    /** `reusedFor` moves into the buffer underlying `reused`, taking its use count along. */
    method ReuseBuffer(reused: nat, reusedFor: nat)
      requires reused < |buffer| && reusedFor < |buffer| == |useCount| == |alloc| && buffer[reused] < |buffer|
      modifies this`useCount, this`buffer, this`alloc
      ensures var r := old(buffer)[reused];
              && buffer == old(buffer)[reusedFor := r]
              && useCount == old(useCount)[r := old(useCount)[r] + old(useCount)[reusedFor]]
              && alloc == old(alloc)[reusedFor := AllocPlan(Reuse, r)]
    {
      var original := buffer[reused];
      buffer := buffer[reusedFor := original];
      useCount := useCount[original := useCount[original] + useCount[reusedFor]];
      alloc := alloc[reusedFor := AllocPlan(Reuse, original)];
    }

    /** The first input the kernel must alias, or failing that may overwrite, for output number n. */
    method FindReusableInput(node: Node, n: nat) returns (reusable: Option<nat>)
      requires node.kernelDef.Some? && n < |node.outputs| && NodeInRange(g, node)
      requires |buffer| == |useCount| == |g.values| && forall v :: 0 <= v < |buffer| ==> buffer[v] < |buffer|
      ensures reusable.None? ==> NoAlias(node, n)
      ensures reusable.None? ==> forall k :: 0 <= k < |node.kernelDef.value.inplace| ==>
                                   !InplaceHit(g, useCount, buffer, node, k, n)
      ensures reusable.Some? ==> Chosen(g, useCount, buffer, node, n, reusable.value)
    {
      var alias, inplace := node.kernelDef.value.alias, node.kernelDef.value.inplace;
      for k := 0 to |alias|
        invariant forall m :: 0 <= m < k ==> !AliasHit(node, m, n)
      {
        if alias[k].1 == n {
          var input := InputAt(node, alias[k].0);
          if input.Some? {
            assert FirstAlias(node, n, k, input.value);
            return input;
          }
        }
      }
      for k := 0 to |inplace|
        invariant forall m :: 0 <= m < k ==> !InplaceHit(g, useCount, buffer, node, m, n)
      {
        if inplace[k].1 == n {
          var input := InputAt(node, inplace[k].0);
          if input.Some? {
            var original := buffer[input.value];
            if useCount[original] == 1 {
              if node.outputs[n].Some? && SameSize(g, input.value, node.outputs[n].value) {
                assert FirstInplace(g, useCount, buffer, node, n, k, input.value);
                return input;
              }
            }
          }
        }
      }
      return None;
    }

    /** Takes the most recently freed buffer of the right place and size off the freelist. */
    method FindReusableTensor(o: nat) returns (reusable: Option<nat>)
      requires o < |g.values| && forall i :: 0 <= i < |freelist| ==> freelist[i].mlValue < |g.values|
      modifies this`freelist
      ensures reusable.None? ==> freelist == old(freelist)
      ensures reusable.None? ==> forall i :: 0 <= i < |freelist| ==> !Fits(g, freelist[i].mlValue, o)
      ensures reusable.Some? ==>
                exists k :: 0 <= k < |old(freelist)| && FirstFit(g, old(freelist), k, o) &&
                  freelist == RemoveAt(old(freelist), k) && old(freelist)[k].mlValue == reusable.value
    {
      if GetShape(g, o).None? { return None; }
      for k := 0 to |freelist|
        invariant freelist == old(freelist)
        invariant forall i :: 0 <= i < k ==> !Fits(g, freelist[i].mlValue, o)
      {
        var available := freelist[k].mlValue;
        if g.values[available].location == g.values[o].location {
          if GetShape(g, available).Some? && SameSize(g, available, o) {
            assert FirstFit(g, old(freelist), k, o);
            freelist := RemoveAt(freelist, k);
            return Some(available);
          }
        }
      }
      return None;
    }

    /** Decides where the output at position j lives. */
    method PlanOutput(node: Node, j: nat, argNum: nat)
      requires Sized(g, State()) && Plannable(g, node)
      requires j < |node.outputs| && node.outputs[j].Some? && argNum == ArgNumber(node, j)
      modifies this`useCount, this`buffer, this`freelist, this`alloc
      ensures State() == PlaceOne(g, parallel, old(State()), node, j)
    {
      hide SameSize, Fits, FirstFit, Chosen, FindAlias, FindInplace, FindFit;
      var current := node.outputs[j].value;
      ArgNumberStep(node, j);
      if current in g.outputs {
        alloc := alloc[current := alloc[current].(kind := AllocateOutput)];
      } else if !g.values[current].isTensor {
        alloc := alloc[current := alloc[current].(kind := Allocate)];
      } else {
        var reused := FindReusableInput(node, argNum);
        if reused.Some? {
          ChosenIsDecided(g, parallel, State(), node, j, reused.value);
          ReuseBuffer(reused.value, current);
        } else {
          NoneChosen(g, useCount, buffer, node, argNum);
          if !parallel {
            reused := FindReusableTensor(current);
          }
          if reused.Some? {
            FitIsDecided(g, old(freelist), freelist, current, reused.value);
            ReuseBuffer(reused.value, current);
          } else {
            NoFit(g, freelist, current);
            alloc := alloc[current := alloc[current].(kind := Allocate)];
          }
        }
      }
    }

    /** Defines values that come from outside the graph; their single use is the caller's hold. */
    method CountSources(values: seq<nat>, ghost before: set<nat>)
      requires |useCount| == |buffer| == |g.values| && forall v :: v in values ==> v < |g.values|
      requires forall v :: 0 <= v < |useCount| ==> useCount[v] == if v in before then 1 else 0
      requires forall v :: 0 <= v < |buffer| && v in before ==> buffer[v] == v
      modifies this`useCount, this`buffer
      ensures |useCount| == |buffer| == |g.values|
      ensures forall v :: 0 <= v < |useCount| ==> useCount[v] == if v in before || v in values then 1 else 0
      ensures forall v :: 0 <= v < |buffer| && (v in before || v in values) ==> buffer[v] == v
    {
      for i := 0 to |values|
        invariant |useCount| == |buffer| == |g.values|
        invariant forall v :: 0 <= v < |useCount| ==> useCount[v] == if v in before || v in values[..i] then 1 else 0
        invariant forall v :: 0 <= v < |buffer| && (v in before || v in values[..i]) ==> buffer[v] == v
      {
        assert values[i] in values;
        ProcessDef(values[i]);
        useCount := useCount[values[i] := useCount[values[i]] + 1];
        assert values[..i + 1] == values[..i] + [values[i]];
      }
      assert values[..|values|] == values;
    }

    method ProcessDef(v: nat)
      requires v < |useCount| == |buffer|
      modifies this`useCount, this`buffer
      ensures useCount == old(useCount)[v := 0] && buffer == old(buffer)[v := v]
    {
      useCount := useCount[v := 0];
      buffer := buffer[v := v];
    }

    method CountUses(args: seq<Option<nat>>)
      requires ArgsInRange(g, args) && |useCount| == |g.values|
      modifies this`useCount
      ensures |useCount| == |g.values|
      ensures forall v :: 0 <= v < |useCount| ==> useCount[v] == old(useCount)[v] + CountOf(Existing(args), v)
    {
      for i := 0 to |args|
        invariant |useCount| == |g.values|
        invariant forall v :: 0 <= v < |useCount| ==> useCount[v] == old(useCount)[v] + CountOf(Existing(args[..i]), v)
      {
        assert args[..i + 1] == args[..i] + [args[i]];
        ExistingConcat(args[..i], [args[i]]);
        forall v | 0 <= v < |useCount|
          ensures CountOf(Existing(args[..i + 1]), v) ==
                  CountOf(Existing(args[..i]), v) + CountOf(Existing([args[i]]), v)
        {
          CountOfConcat(Existing(args[..i]), Existing([args[i]]), v);
        }
        if args[i].Some? {
          assert Existing([args[i]]) == [args[i].value];
          useCount := useCount[args[i].value := useCount[args[i].value] + 1];
        }
      }
      assert args[..|args|] == args;
    }

    /** Defines the outputs of step pc, none of which has been counted before. */
    method CountDefinitions(pc: nat)
      requires pc < |g.nodes| && WellFormed(g) && |useCount| == |buffer| == |g.values|
      requires forall v :: v in Existing(g.nodes[pc].outputs) && v < |useCount| ==> useCount[v] == 0
      modifies this`useCount, this`buffer
      ensures |useCount| == |buffer| == |g.values|
      ensures forall v :: 0 <= v < |useCount| ==>
                useCount[v] == old(useCount)[v] + CountOf(Existing(g.nodes[pc].outputs), v)
      ensures forall v :: 0 <= v < |buffer| ==>
                buffer[v] == if v in Existing(g.nodes[pc].outputs) then v else old(buffer)[v]
    {
      hide *;
      var outs := g.nodes[pc].outputs;
      OutputsInRange(g, pc);
      CountOfNothing();
      NoArgs(outs);
      for j := 0 to |outs|
        invariant |useCount| == |buffer| == |g.values|
        invariant forall v :: 0 <= v < |useCount| ==> useCount[v] == old(useCount)[v] + CountOf(Existing(outs[..j]), v)
        invariant forall v :: 0 <= v < |buffer| ==> buffer[v] == if v in Existing(outs[..j]) then v else old(buffer)[v]
      {
        OneMoreArg(outs, j);
        if outs[j].Some? {
          OutputAt(g, pc, j);
          OutputIsNew(g, pc, j);
          CountOfZero(Existing(outs[..j]), outs[j].value);
          ProcessDef(outs[j].value);
          useCount := useCount[outs[j].value := useCount[outs[j].value] + 1];
        }
      }
      assert outs[..|outs|] == outs;
    }

    lemma NoArgs(outs: seq<Option<nat>>)
      ensures Existing(outs[..0]) == []
    {
    }

    lemma OutputAt(g: Graph, pc: nat, j: nat)
      requires pc < |g.nodes| && ArgsInRange(g, g.nodes[pc].outputs) && j < |g.nodes[pc].outputs|
               && g.nodes[pc].outputs[j].Some?
      ensures g.nodes[pc].outputs[j].value < |g.values|
    {
    }

    lemma OneMoreArg(outs: seq<Option<nat>>, j: nat)
      requires j < |outs|
      ensures forall v: nat ::
                CountOf(Existing(outs[..j + 1]), v) ==
                CountOf(Existing(outs[..j]), v) + if outs[j] == Some(v) then 1 else 0
      ensures forall v: nat :: v in Existing(outs[..j + 1]) <==> v in Existing(outs[..j]) || outs[j] == Some(v)
    {
      assert outs[..j + 1] == outs[..j] + [outs[j]];
      ExistingConcat(outs[..j], [outs[j]]);
      var last := Existing([outs[j]]);
      assert last == if outs[j].Some? then [outs[j].value] else [];
      hide Existing, CountOf;
      CountOfNothing();
      if outs[j].Some? { CountOfOne(outs[j].value); }
      forall v: nat
        ensures CountOf(Existing(outs[..j + 1]), v) ==
                CountOf(Existing(outs[..j]), v) + if outs[j] == Some(v) then 1 else 0
      {
        CountOfConcat(Existing(outs[..j]), last, v);
      }
      forall v: nat
        ensures v in Existing(outs[..j + 1]) <==> v in Existing(outs[..j]) || outs[j] == Some(v)
      {
        assert v in last <==> outs[j] == Some(v);
      }
    }

    lemma SourcesInRange()
      requires WellFormed(g)
      ensures forall v :: v in g.inputs || v in g.outerScope || v in g.initializers ==> v < |g.values|
    {
      forall v | v in g.inputs || v in g.outerScope || v in g.initializers
        ensures v < |g.values|
      {
        assert IsSource(g, v);
      }
    }

    method CountAllSources()
      requires WellFormed(g) && |useCount| == |buffer| == |g.values|
      requires forall v :: 0 <= v < |useCount| ==> useCount[v] == 0
      modifies this`useCount, this`buffer
      ensures Counted(g, useCount, buffer, 0) && |useCount| == |g.values|
    {
      SourcesInRange();
      hide WellFormed;
      CountSources(g.inputs, {});
      CountSources(g.outerScope, Elements(g.inputs));
      CountSources(g.initializers, Elements(g.inputs) + Elements(g.outerScope));
    }

    method CountStep(pc: nat)
      requires WellFormed(g) && pc < |g.nodes| && Counted(g, useCount, buffer, pc)
      modifies this`useCount, this`buffer
      ensures Counted(g, useCount, buffer, pc + 1) && |useCount| == |g.values|
    {
      assert NodeOk(g, pc);
      var node := g.nodes[pc];
      ghost var before, bufferBefore := useCount, buffer;
      CountUses(node.inputs);
      CountUses(node.implicits);
      NotYetCounted(pc, before);
      CountDefinitions(pc);
      hide WellFormed, NodeOk, Counted;
      forall v | 0 <= v < |useCount|
        ensures useCount[v] == before[v] + CountOf(Touched(node), v)
      {
        CountOfConcat(Existing(node.inputs), Existing(node.implicits), v);
        CountOfConcat(Existing(node.inputs) + Existing(node.implicits), Existing(node.outputs), v);
      }
      CountedStep(g, before, useCount, bufferBefore, buffer, pc);
    }

    /** Counts every use, definition and hold; fails when some node has no kernel. */
    method ComputeUseCounts() returns (ok: bool, ghost last: seq<int>)
      requires WellFormed(g) && |useCount| == |buffer| == |g.values|
      requires forall v :: 0 <= v < |useCount| ==> useCount[v] == 0
      modifies this`useCount, this`buffer
      ensures ok <==> forall pc :: 0 <= pc < |g.nodes| ==> g.nodes[pc].kernelDef.Some?
      ensures ok ==> Counted(g, last, buffer, |g.nodes|) && |useCount| == |g.values|
      ensures ok ==> forall v :: 0 <= v < |useCount| ==> useCount[v] == last[v] + CountOf(g.outputs, v)
    {
      hide WellFormed, Counted, CountOf;
      last := useCount;
      CountAllSources();
      for pc := 0 to |g.nodes|
        invariant Counted(g, useCount, buffer, pc) && |useCount| == |g.values|
        invariant forall p :: 0 <= p < pc ==> g.nodes[p].kernelDef.Some?
      {
        if g.nodes[pc].kernelDef.None? { return false, last; }
        CountStep(pc);
      }
      last := useCount;
      CountHeldOutputs();
      ok := true;
    }

    /** An output has no use before its definition, so resetting its count loses nothing. */
    lemma NotYetCounted(pc: nat, before: seq<int>)
      requires WellFormed(g) && pc < |g.nodes| && Counted(g, before, buffer, pc) && |useCount| == |before|
      requires forall v :: 0 <= v < |useCount| ==>
                 useCount[v] == before[v] + CountOf(Existing(g.nodes[pc].inputs), v)
                              + CountOf(Existing(g.nodes[pc].implicits), v)
      ensures forall v :: v in Existing(g.nodes[pc].outputs) && v < |useCount| ==> useCount[v] == 0
    {
      assert NodeOk(g, pc);
      var node := g.nodes[pc];
      forall v | v in Existing(node.outputs) && v < |useCount|
        ensures useCount[v] == 0
      {
        assert v !in Defined(g, pc);
        DefinedGrows(g, 0, pc);
        if v in Processed(g, pc) { ProcessedIsDefined(g, pc, v); }
        CountOfZero(Processed(g, pc), v);
        CountOfZero(Existing(node.inputs), v);
        CountOfZero(Existing(node.implicits), v);
      }
    }

    method CountHeldOutputs()
      requires WellFormed(g) && |useCount| == |g.values|
      modifies this`useCount
      ensures |useCount| == |g.values|
      ensures forall v :: 0 <= v < |useCount| ==> useCount[v] == old(useCount)[v] + CountOf(g.outputs, v)
    {
      for i := 0 to |g.outputs|
        invariant |useCount| == |g.values|
        invariant forall v :: 0 <= v < |useCount| ==> useCount[v] == old(useCount)[v] + CountOf(g.outputs[..i], v)
      {
        assert g.outputs[..i + 1] == g.outputs[..i] + [g.outputs[i]];
        forall v | 0 <= v < |useCount|
          ensures CountOf(g.outputs[..i + 1], v) == CountOf(g.outputs[..i], v) + if g.outputs[i] == v then 1 else 0
        {
          assert CountOf([g.outputs[i]], v) == if g.outputs[i] == v then 1 else 0;
          CountOfConcat(g.outputs[..i], [g.outputs[i]], v);
        }
        useCount := useCount[g.outputs[i] := useCount[g.outputs[i]] + 1];
      }
      assert g.outputs[..|g.outputs|] == g.outputs;
    }

    /** Values owned by the caller are never allocated here. */
    method SetupPreexisting(values: seq<nat>)
      requires |alloc| == |g.values| && forall v :: v in values ==> v < |g.values|
      modifies this`alloc
      ensures |alloc| == |g.values|
      ensures forall v :: 0 <= v < |alloc| ==>
                alloc[v] == if v in values then old(alloc)[v].(kind := PreExisting) else old(alloc)[v]
    {
      for i := 0 to |values|
        invariant |alloc| == |g.values|
        invariant forall v :: 0 <= v < |alloc| ==>
                    alloc[v] == if v in values[..i] then old(alloc)[v].(kind := PreExisting) else old(alloc)[v]
      {
        assert values[i] in values;
        assert values[..i + 1] == values[..i] + [values[i]];
        alloc := alloc[values[i] := alloc[values[i]].(kind := PreExisting)];
      }
      assert values[..|values|] == values;
    }

    /** Weights that some node reads are allocated once, before any run. */
    method GeneratePlanForWeights()
      requires WellFormed(g) && |alloc| == |g.values|
      modifies this`alloc
      ensures |alloc| == |g.values|
      ensures forall v :: 0 <= v < |alloc| ==>
                alloc[v] == if v in g.initializers && ReadByNode(g, v)
                            then old(alloc)[v].(kind := AllocateStatically) else old(alloc)[v]
    {
      for pc := 0 to |g.nodes|
        invariant |alloc| == |g.values|
        invariant forall v :: 0 <= v < |alloc| ==>
                    alloc[v] == if v in g.initializers && ReadByOneOf(v, pc)
                                then old(alloc)[v].(kind := AllocateStatically) else old(alloc)[v]
      {
        var inputs := g.nodes[pc].inputs;
        assert NodeOk(g, pc);
        for i := 0 to |inputs|
          invariant |alloc| == |g.values|
          invariant forall v :: 0 <= v < |alloc| ==>
                      alloc[v] == if v in g.initializers && (ReadByOneOf(v, pc) || Some(v) in inputs[..i])
                                  then old(alloc)[v].(kind := AllocateStatically) else old(alloc)[v]
        {
          assert inputs[..i + 1] == inputs[..i] + [inputs[i]];
          if inputs[i].Some? && inputs[i].value in g.initializers {
            alloc := alloc[inputs[i].value := alloc[inputs[i].value].(kind := AllocateStatically)];
          }
        }
        assert inputs[..|inputs|] == inputs;
      }
    }

    /** One of the first n nodes names v as an explicit input. */
    ghost predicate ReadByOneOf(v: nat, n: nat) {
      exists pc :: 0 <= pc < n && pc < |g.nodes| && Some(v) in g.nodes[pc].inputs
    }

    /** One event per present argument is over; buffers with no event left become free. */
    method ReleaseArgs(pc: nat, args: seq<Option<nat>>)
      requires Sized(g, State()) && ArgsInRange(g, args)
      modifies this`useCount, this`freelist
      ensures State() == ReleaseTo(g, old(State()), args, pc, |args|)
    {
      for i := 0 to |args|
        invariant State() == ReleaseTo(g, old(State()), args, pc, i)
      {
        if args[i].Some? {
          var original := buffer[args[i].value];
          useCount := useCount[original := useCount[original] - 1];
          if useCount[original] == 0 {
            freelist := [FreeBufferInfo(original, pc)] + freelist;
          }
        }
      }
    }

    /** Places all outputs of step pc, then releases everything the step touched. */
    method PlanStep(pc: nat)
      requires pc < |g.nodes| && Sized(g, State()) && Plannable(g, g.nodes[pc])
      modifies this`useCount, this`buffer, this`freelist, this`alloc
      ensures State() == PlanNode(g, parallel, old(State()), pc)
    {
      hide PlaceOne, ReleaseTo, Sized;
      var node := g.nodes[pc];
      var argNum := 0;
      for j := 0 to |node.outputs|
        invariant State() == PlaceTo(g, parallel, old(State()), node, j)
        invariant argNum == ArgNumber(node, j)
      {
        ArgNumberStep(node, j);
        if node.outputs[j].Some? {
          PlanOutput(node, j, argNum);
          argNum := argNum + 1;
        } else {
          MissingStays(g, parallel, State(), node, j);
        }
      }
      ReleaseArgs(pc, node.inputs);
      ReleaseArgs(pc, node.implicits);
      ReleaseArgs(pc, node.outputs);
    }

    /** Copies the freelist, oldest first, and gives each step the range that becomes free there. */
    method GenerateDeallocationPlan()
      requires Ordered(freelist) && toBeFreed == []
      requires forall i :: 0 <= i < |freelist| ==> freelist[i].deallocatePoint < |steps|
      requires forall n :: 0 <= n < |steps| ==> steps[n] == StepPlan(1, 0)
      modifies this`steps, this`toBeFreed
      ensures |steps| == |old(steps)| && |toBeFreed| == |freelist|
      ensures forall i :: 0 <= i < |toBeFreed| ==> toBeFreed[i] == FromOldest(freelist, i).mlValue
      ensures forall n :: 0 <= n < |steps| ==> RangeExact(freelist, |freelist|, steps[n], n)
    {
      var hasPrev, prev := false, 0;
      for current := 0 to |freelist|
        invariant |steps| == |old(steps)| && |toBeFreed| == current
        invariant forall i :: 0 <= i < current ==> toBeFreed[i] == FromOldest(freelist, i).mlValue
        invariant current == 0 ==> prev == 0
        invariant current > 0 ==> prev == FromOldest(freelist, current - 1).deallocatePoint < |steps|
        invariant hasPrev <==> prev > 0
        invariant forall n :: 0 <= n < |steps| && !(hasPrev && n == prev) ==> RangeExact(freelist, current, steps[n], n)
        invariant hasPrev ==> 0 <= steps[prev].freeFrom && RangeOpen(freelist, current, steps[prev], prev)
      {
        var entry := FromOldest(freelist, current);
        toBeFreed := toBeFreed + [entry.mlValue];
        if current > 0 { OldestFirst(freelist, current - 1, current); }
        if entry.deallocatePoint != prev {
          OpenRange(freelist, current, steps[entry.deallocatePoint]);
          if hasPrev {
            CloseRange(freelist, current, steps[prev], prev);
            steps := steps[prev := steps[prev].(freeTo := current - 1)];
          }
          prev, hasPrev := entry.deallocatePoint, true;
          steps := steps[prev := steps[prev].(freeFrom := current)];
        }
        forall n | 0 <= n < |steps| && !(hasPrev && n == prev)
          ensures RangeExact(freelist, current + 1, steps[n], n)
        {
          ExactGrows(freelist, current, steps[n], n);
        }
      }
      if hasPrev {
        CloseRange(freelist, |freelist|, steps[prev], prev);
        steps := steps[prev := steps[prev].(freeTo := |freelist| - 1)];
      }
    }

    /** Decides all buffers, step by step. */
    method ComputeReusePlan(ghost last: seq<int>)
      requires WellFormed(g) && Counted(g, last, buffer, |g.nodes|) && |useCount| == |g.values|
      requires forall v :: 0 <= v < |useCount| ==> useCount[v] == last[v] + CountOf(g.outputs, v)
      requires AllKernels(g) && freelist == []
      requires |alloc| == |g.values| && forall v :: 0 <= v < |alloc| ==> alloc[v] == AllocPlan(Allocate, 0)
      modifies this`useCount, this`buffer, this`freelist, this`alloc
      ensures State() == StateAt(g, parallel, |g.nodes|)
    {
      hide WellFormed, AllKernels, Counted, StateAt, Sized, PlanNode, Plannable, CountOf, InitialState;
      InitializeAlloc();
      CountedIsInitial(g, last, useCount, buffer);
      StartState(g, parallel, State());
      for pc := 0 to |g.nodes|
        invariant State() == StateAt(g, parallel, pc)
      {
        NodePlannable(g, pc);
        PlanStep(pc);
        StateStep(g, parallel, pc);
      }
    }

    method InitializeAlloc()
      requires WellFormed(g) && |alloc| == |g.values|
               && forall v :: 0 <= v < |alloc| ==> alloc[v] == AllocPlan(Allocate, 0)
      modifies this`alloc
      ensures alloc == InitialState(g).alloc
    {
      SourcesInRange();
      hide WellFormed, ReadByNode;
      SetupPreexisting(g.inputs);
      SetupPreexisting(g.outerScope);
      GeneratePlanForWeights();
    }

    /**
     The whole plan; no plan exists when some node has no kernel.  The plan is a function of the graph, and it is safe
     to follow exactly if no decision on the way was misdirected, a clash or an alias of something that is no tensor.
     */
    method CreatePlan() returns (plan: Option<Plan>)
      requires WellFormed(g) && freelist == [] && toBeFreed == []
      requires |useCount| == |buffer| == |alloc| == |g.values| && |steps| == |g.nodes|
      requires forall v :: 0 <= v < |g.values| ==> useCount[v] == 0 && alloc[v] == AllocPlan(Allocate, 0)
      requires forall n :: 0 <= n < |g.nodes| ==> steps[n] == StepPlan(1, 0)
      modifies this
      ensures plan.Some? <==> AllKernels(g)
      ensures plan.Some? ==> Made(g, parallel, plan.value)
      ensures plan.Some? ==> (SafePlan(g, plan.value) <==> Clean(g, parallel))
    {
      hide WellFormed, StateAt, SafePlan, Clean, Counted;
      var ok, last := ComputeUseCounts();
      if !ok { return None; }
      ComputeReusePlan(last);
      FreelistFacts(g, parallel);
      GenerateDeallocationPlan();
      plan := Some(Plan(alloc, steps, toBeFreed));
      SafeExactlyIfClean(g, parallel, plan.value);
    }
  }

  // ----- the searches find what the specification decides

  lemma ChosenIsDecided(g: Graph, parallel: bool, s: PlanState, node: Node, j: nat, x: nat)
    requires Sized(g, s) && Plannable(g, node) && j < |node.outputs| && node.outputs[j].Some?
    requires node.outputs[j].value !in g.outputs && g.values[node.outputs[j].value].isTensor
    requires Chosen(g, s.useCount, s.buffer, node, ArgNumber(node, j), x)
    ensures Decide(g, parallel, s, node, j) in {TakeAlias(x), TakeInplace(x)} && x < |g.values|
  {
    hide SameSize, FindFit;
    var n := ArgNumber(node, j);
    var a, i := FindAlias(node, n, 0), FindInplace(g, s.useCount, s.buffer, node, n, 0);
    if k :| FirstAlias(node, n, k, x) {
      assert a == Some(k);
    } else {
      var k :| FirstInplace(g, s.useCount, s.buffer, node, n, k, x);
      assert a == None && i == Some(k);
    }
  }

  lemma NoneChosen(g: Graph, useCount: seq<int>, buffer: seq<nat>, node: Node, n: nat)
    requires node.kernelDef.Some? && NoAlias(node, n)
    requires forall k :: 0 <= k < |node.kernelDef.value.inplace| ==> !InplaceHit(g, useCount, buffer, node, k, n)
    ensures FindAlias(node, n, 0) == None && FindInplace(g, useCount, buffer, node, n, 0) == None
  {
    hide InplaceHit;
  }

  lemma FitIsDecided(g: Graph, before: seq<FreeBufferInfo>, after: seq<FreeBufferInfo>, o: nat, r: nat)
    requires o < |g.values| && forall i :: 0 <= i < |before| ==> before[i].mlValue < |g.values|
    requires exists k ::
               0 <= k < |before| && FirstFit(g, before, k, o) && after == RemoveAt(before, k) && before[k].mlValue == r
    ensures var k := FindFit(g, before, o, 0);
            k.Some? && after == RemoveAt(before, k.value) && before[k.value].mlValue == r
  {
    hide Fits;
    var k :| 0 <= k < |before| && FirstFit(g, before, k, o) && after == RemoveAt(before, k) && before[k].mlValue == r;
    assert FindFit(g, before, o, 0) == Some(k);
  }

  lemma NoFit(g: Graph, entries: seq<FreeBufferInfo>, o: nat)
    requires o < |g.values| && forall i :: 0 <= i < |entries| ==> entries[i].mlValue < |g.values|
    ensures (forall i :: 0 <= i < |entries| ==> !Fits(g, entries[i].mlValue, o)) ==> FindFit(g, entries, o, 0) == None
  {
    hide Fits;
  }

  lemma MissingStays(g: Graph, parallel: bool, s: PlanState, node: Node, j: nat)
    requires Sized(g, s) && Plannable(g, node) && j < |node.outputs| && node.outputs[j].None?
    ensures PlaceOne(g, parallel, s, node, j) == s
  {
  }

  lemma StartState(g: Graph, parallel: bool, s: PlanState)
    requires WellFormed(g) && AllKernels(g) && s.freelist == [] && s.alloc == InitialState(g).alloc
    requires s.useCount == InitialState(g).useCount && s.buffer == InitialState(g).buffer
    ensures s == StateAt(g, parallel, 0) && Sized(g, s)
  {
  }

  lemma StateStep(g: Graph, parallel: bool, pc: nat)
    requires WellFormed(g) && AllKernels(g) && pc < |g.nodes| && Plannable(g, g.nodes[pc])
    ensures StateAt(g, parallel, pc + 1) == PlanNode(g, parallel, StateAt(g, parallel, pc), pc)
    ensures Sized(g, StateAt(g, parallel, pc + 1))
  {
    hide WellFormed, AllKernels, Plannable, PlanNode, Sized;
  }

  /** What is released when: the freelist, oldest first, cut into one range per step. */
  ghost predicate Released(g: Graph, plan: Plan, freelist: seq<FreeBufferInfo>) {
    && |plan.steps| == |g.nodes| && |plan.toBeFreed| == |freelist|
    && (forall i :: 0 <= i < |freelist| ==> plan.toBeFreed[i] == FromOldest(freelist, i).mlValue)
    && (forall n :: 0 <= n < |plan.steps| ==> RangeExact(freelist, |freelist|, plan.steps[n], n))
  }

  /** The plan that the planner's last state and the cut of its freelist make up. */
  ghost predicate Made(g: Graph, parallel: bool, plan: Plan)
    requires WellFormed(g) && AllKernels(g)
  {
    var s := StateAt(g, parallel, |g.nodes|);
    plan.alloc == s.alloc && Released(g, plan, s.freelist)
  }

  lemma FreelistFacts(g: Graph, parallel: bool)
    requires WellFormed(g) && AllKernels(g)
    ensures var s := StateAt(g, parallel, |g.nodes|);
            && Ordered(s.freelist) && Covers(g, s.buffer)
            && (forall i :: 0 <= i < |s.freelist| ==> s.freelist[i].deallocatePoint < |g.nodes|)
            && (forall i :: 0 <= i < |s.freelist| ==> EntryOk(g, s.useCount, s.buffer, s.freelist[i]))
  {
    hide WellFormed, AllKernels, StateAt, StepsSafe, AllocOk, BufferOk, CountsExact, UnusedListed;
    AlwaysReady(false, g, parallel, |g.nodes|);
    var s := StateAt(g, parallel, |g.nodes|);
    forall i | 0 <= i < |s.freelist|
      ensures EntryOk(g, s.useCount, s.buffer, s.freelist[i])
    {
      assert s.freelist[i] in s.freelist;
    }
  }

  lemma RangesSafe(g: Graph, parallel: bool, plan: Plan)
    requires WellFormed(g) && AllKernels(g) && Made(g, parallel, plan)
    ensures var root := StateAt(g, parallel, |g.nodes|).buffer;
            && Covers(g, root) && |plan.steps| == |g.nodes|
            && forall pc :: 0 <= pc < |g.nodes| ==> RangeSafe(g, plan, root, pc)
  {
    hide WellFormed, AllKernels, StateAt, ReleaseSafe, FromOldest;
    FreelistFacts(g, parallel);
    var s := StateAt(g, parallel, |g.nodes|);
    forall pc, i | 0 <= pc < |g.nodes| && InRange(plan.steps[pc], i)
      ensures 0 <= i < |plan.toBeFreed| && ReleaseSafe(g, s.buffer, pc, plan.toBeFreed[i])
    {
      assert RangeExact(s.freelist, |s.freelist|, plan.steps[pc], pc);
      OldestIsEntry(s.freelist, i);
      assert EntryOk(g, s.useCount, s.buffer, FromOldest(s.freelist, i));
    }
  }

  lemma OldestIsEntry(freelist: seq<FreeBufferInfo>, i: nat)
    requires i < |freelist|
    ensures exists k :: 0 <= k < |freelist| && freelist[k] == FromOldest(freelist, i)
  {
    assert freelist[|freelist| - 1 - i] == FromOldest(freelist, i);
  }

  /** What the end of the walk says about the plan, safe or not. */
  lemma MadeFacts(g: Graph, parallel: bool, plan: Plan)
    requires WellFormed(g) && AllKernels(g) && Made(g, parallel, plan)
    ensures var root := StateAt(g, parallel, |g.nodes|).buffer;
            && |plan.alloc| == |g.values| && RootMap(plan) == root && Covers(g, root) && RootsOk(g, root, |g.nodes|)
            && (forall v :: 0 <= v < |g.values| && plan.alloc[v].kind.Reuse? ==> g.values[v].isTensor && root[v] != v)
            && (forall v :: v in Defined(g, |g.nodes|) && v !in Sources(g) ==>
                  v < |g.values| && plan.alloc[v].kind in {Allocate, AllocateOutput, Reuse})
  {
    hide WellFormed, AllKernels, StateAt, StepsSafe, CountsExact, FreelistOk, Released;
    AlwaysReady(false, g, parallel, |g.nodes|);
    var root := StateAt(g, parallel, |g.nodes|).buffer;
    assert RootMap(plan) == root;
    forall v | v in Defined(g, |g.nodes|) && v !in Sources(g)
      ensures v < |g.values| && plan.alloc[v].kind in {Allocate, AllocateOutput, Reuse}
    {
      DefinedInRange(g, |g.nodes|, v);
    }
  }

  /** After a clean walk every placement is safe and only tensors are shared. */
  lemma CleanSteps(g: Graph, parallel: bool, plan: Plan)
    requires WellFormed(g) && AllKernels(g) && Made(g, parallel, plan) && Clean(g, parallel)
    ensures var root := StateAt(g, parallel, |g.nodes|).buffer;
            && Covers(g, root) && |plan.alloc| == |root|
            && (forall pc :: 0 <= pc < |g.nodes| ==> StepSafe(g, root, pc, |g.nodes[pc].outputs|))
            && (forall v :: 0 <= v < |plan.alloc| && plan.alloc[v].kind.Reuse? && root[v] < |g.values| ==>
                  g.values[root[v]].isTensor)
  {
    hide WellFormed, AllKernels, Clean, StateAt, StepSafe, Invariant, Sound;
    CleanIsSound(g, parallel);
    AlwaysReady(true, g, parallel, |g.nodes|);
  }

  lemma SafeParts(g: Graph, plan: Plan)
    requires SafePlan(g, plan)
    ensures var root := RootMap(plan);
            && Covers(g, root) && (forall pc :: 0 <= pc < |g.nodes| ==> StepSafe(g, root, pc, |g.nodes[pc].outputs|))
            && (forall v :: 0 <= v < |g.values| && plan.alloc[v].kind.Reuse? ==>
                  root[v] < |g.values| && g.values[root[v]].isTensor)
  {
    hide StepSafe, RangeSafe;
  }

  lemma SafeIsClean(g: Graph, parallel: bool, plan: Plan, pc: nat)
    requires WellFormed(g) && AllKernels(g) && Made(g, parallel, plan) && SafePlan(g, plan)
             && pc < |g.nodes|
    ensures CleanStep(g, parallel, pc)
  {
    hide WellFormed, AllKernels, StateAt, SafePlan, StepSafe, Released, Clash, Misdirected,
      AliasesNonTensor;
    SafeParts(g, plan);
    MadeFacts(g, parallel, plan);
    forall i: nat, j: nat | i < j < |g.nodes[pc].outputs|
      ensures !Clash(g, parallel, pc, i, j)
    {
      if Clash(g, parallel, pc, i, j) {
        ClashIsUnsafe(g, parallel, pc, i, j);
        assert false;
      }
    }
    forall j: nat | j < |g.nodes[pc].outputs|
      ensures !Misdirected(g, parallel, pc, j) && !AliasesNonTensor(g, parallel, pc, j)
    {
      if Misdirected(g, parallel, pc, j) {
        MisdirectedIsUnsafe(g, parallel, pc, j);
        assert false;
      }
      if AliasesNonTensor(g, parallel, pc, j) {
        NonTensorIsUnsafe(g, parallel, pc, j);
        assert false;
      }
    }
  }

  /**
   The plan is safe exactly if every output that takes over a buffer of an input has a pair of its own position offering
   it, outputs of one node take the same buffer only if all of them are declared to alias it, and no output aliases
   something that is no tensor.
   */
  lemma SafeExactlyIfClean(g: Graph, parallel: bool, plan: Plan)
    requires WellFormed(g) && AllKernels(g) && Made(g, parallel, plan)
    ensures SafePlan(g, plan) <==> Clean(g, parallel)
  {
    hide WellFormed, AllKernels, StateAt, StepSafe, RangeSafe, CleanStep, Made, RootsOk, Sources, Defined;
    if SafePlan(g, plan) {
      hide SafePlan;
      forall pc: nat | pc < |g.nodes|
        ensures CleanStep(g, parallel, pc)
      {
        SafeIsClean(g, parallel, plan, pc);
      }
    }
    if Clean(g, parallel) {
      CleanSteps(g, parallel, plan);
      MadeFacts(g, parallel, plan);
      RangesSafe(g, parallel, plan);
      RootsBounded(g, RootMap(plan));
    }
  }

  lemma RootsBounded(g: Graph, root: seq<nat>)
    requires Covers(g, root) && RootsOk(g, root, |g.nodes|)
    ensures forall v :: 0 <= v < |root| ==> root[v] < |root|
  {
  }
}
