/** Which buffer every value gets: the planner misses no chance to share, and the plan records what was decided. */
module PlanDecisions {
  import opened Wrappers
  import opened GraphModel
  import opened PlanSafety
  import opened PlannerInvariant
  import opened PlannerSpec
  import opened Placement
  import opened PlannerRun
  import opened Planner

  /** Some alias pair names output number n and an input that is there. */
  ghost predicate AliasDeclared(node: Node, n: nat) {
    node.kernelDef.Some? && exists k ::
      && 0 <= k < |node.kernelDef.value.alias| && node.kernelDef.value.alias[k].1 == n
      && InputAt(node, node.kernelDef.value.alias[k].0).Some?
  }

  /** Some in-place pair names output number n and an input of its size that nothing else needs any more. */
  ghost predicate OverwriteDeclared(g: Graph, s: PlanState, node: Node, n: nat)
    requires Sized(g, s) && Plannable(g, node) && n < |node.outputs|
  {
    node.outputs[n].Some? && exists k ::
      && 0 <= k < |node.kernelDef.value.inplace| && node.kernelDef.value.inplace[k].1 == n
      && var x := InputAt(node, node.kernelDef.value.inplace[k].0);
      x.Some? && x.value < |g.values| && s.useCount[s.buffer[x.value]] == 1
      && SameSize(g, x.value, node.outputs[n].value)
  }

  /** Some free buffer is in the place where o has to be, and of its size. */
  ghost predicate BufferFree(g: Graph, s: PlanState, o: nat)
    requires Sized(g, s) && o < |g.values|
  {
    exists i ::
      && 0 <= i < |s.freelist| && g.values[s.freelist[i].mlValue].location == g.values[o].location
      && SameSize(g, s.freelist[i].mlValue, o)
  }

  lemma AliasExactly(node: Node, n: nat)
    requires node.kernelDef.Some?
    ensures FindAlias(node, n, 0).Some? <==> AliasDeclared(node, n)
  {
    var r := FindAlias(node, n, 0);
    hide FindAlias;
    if r.None? {
      forall k | 0 <= k < |node.kernelDef.value.alias|
        ensures !(node.kernelDef.value.alias[k].1 == n && InputAt(node, node.kernelDef.value.alias[k].0).Some?)
      {
        assert !AliasHit(node, k, n);
      }
    }
  }

  lemma InplaceExactly(g: Graph, s: PlanState, node: Node, n: nat)
    requires Sized(g, s) && Plannable(g, node) && n < |node.outputs|
    ensures FindInplace(g, s.useCount, s.buffer, node, n, 0).Some? <==> OverwriteDeclared(g, s, node, n)
  {
    var r, def := FindInplace(g, s.useCount, s.buffer, node, n, 0), node.kernelDef.value;
    hide FindInplace, SameSize;
    if r.None? && node.outputs[n].Some? {
      forall k | 0 <= k < |def.inplace| && def.inplace[k].1 == n && InputAt(node, def.inplace[k].0).Some?
        ensures var x := InputAt(node, def.inplace[k].0).value;
                x < |g.values| ==> s.useCount[s.buffer[x]] != 1 || !SameSize(g, x, node.outputs[n].value)
      {
        assert !InplaceHit(g, s.useCount, s.buffer, node, k, n);
      }
    }
  }

  lemma FreeExactly(g: Graph, s: PlanState, o: nat)
    requires Sized(g, s) && o < |g.values|
    ensures FindFit(g, s.freelist, o, 0).Some? <==> BufferFree(g, s, o)
    ensures FindFit(g, s.freelist, o, 0).Some? ==>
              var k := FindFit(g, s.freelist, o, 0).value;
              && k < |s.freelist| && g.values[s.freelist[k].mlValue].location == g.values[o].location
              && forall i :: 0 <= i < k && g.values[s.freelist[i].mlValue].location == g.values[o].location ==>
                   !SameSize(g, s.freelist[i].mlValue, o)
  {
    var r := FindFit(g, s.freelist, o, 0);
    hide FindFit, SameSize;
    if r.None? {
      forall i | 0 <= i < |s.freelist| && g.values[s.freelist[i].mlValue].location == g.values[o].location
        ensures !SameSize(g, s.freelist[i].mlValue, o)
      {
        assert !Fits(g, s.freelist[i].mlValue, o);
      }
    }
  }

  /**
   The decision about an output is fixed by what is declared under its number and what is free: graph outputs and
   things that are no tensors get a buffer of their own; then an alias goes before an overwrite, an overwrite before a
   free buffer, and a free buffer, which only a sequential run may use, before a new one.
   */
  lemma DecidedExactly(g: Graph, parallel: bool, s: PlanState, node: Node, j: nat)
    requires Sized(g, s) && Plannable(g, node) && j < |node.outputs|
    ensures ArgNumber(node, j) <= j
    ensures var d, out, n := Decide(g, parallel, s, node, j), node.outputs[j], ArgNumber(node, j);
            && (d.Missing? <==> out.None?)
            && (out.Some? ==>
                  var o := out.value;
                  var sharable, alias := o !in g.outputs && g.values[o].isTensor, AliasDeclared(node, n);
                  var overwrite, free := OverwriteDeclared(g, s, node, n), !parallel && BufferFree(g, s, o);
                  && (d == Own(AllocateOutput) <==> o in g.outputs)
                  && (d.TakeAlias? <==> sharable && alias)
                  && (d.TakeInplace? <==> sharable && !alias && overwrite)
                  && (d.TakeFree? <==> sharable && !alias && !overwrite && free)
                  && (d == Own(Allocate) <==> o !in g.outputs && !(sharable && (alias || overwrite || free))))
  {
    hide SameSize, FindAlias, FindInplace, FindFit, AliasDeclared, OverwriteDeclared, BufferFree, NodeInRange, Sized,
      ArgNumber;
    ArgNumberStep(node, j);
    if node.outputs[j].Some? {
      var n := ArgNumber(node, j);
      InplaceExactly(g, s, node, n);
      AliasExactly(node, n);
      OutputInRange(g, node, j);
      FreeExactly(g, s, node.outputs[j].value);
    }
  }

  lemma OutputInRange(g: Graph, node: Node, j: nat)
    requires NodeInRange(g, node) && j < |node.outputs| && node.outputs[j].Some?
    ensures node.outputs[j].value < |g.values|
  {
  }

  // ----- the plan records it

  lemma PlaceOneAlloc(g: Graph, parallel: bool, s: PlanState, node: Node, j: nat)
    requires Sized(g, s) && Plannable(g, node) && j < |node.outputs|
    ensures var d, t := Decide(g, parallel, s, node, j), PlaceOne(g, parallel, s, node, j);
            && |t.alloc| == |s.alloc| == |t.buffer| == |g.values|
            && (forall v :: 0 <= v < |s.alloc| && node.outputs[j] != Some(v) ==> t.alloc[v] == s.alloc[v])
            && (node.outputs[j].Some? ==>
                  var o := node.outputs[j].value;
                  && o < |g.values|
                  && (d.Own? ==> t.alloc[o].kind == d.kind)
                  && (d.TakeAlias? || d.TakeInplace? || d.TakeFree? ==> t.alloc[o] == AllocPlan(Reuse, t.buffer[o])))
  {
    hide Decide;
    DecideFacts(g, parallel, s, node, j);
    DecideInRange(g, parallel, s, node, j);
  }

  /** What has been decided stays while the step's later outputs are placed. */
  lemma {:induction false} AllocKept(g: Graph, parallel: bool, pc: nat, i: nat, j: nat, v: nat)
    requires WellFormed(g) && AllKernels(g) && pc < |g.nodes| && i <= j <= |g.nodes[pc].outputs|
    requires v < |g.values| && v in Prior(g, pc, i)
    ensures |StateBefore(g, parallel, pc, i).alloc| == |StateBefore(g, parallel, pc, j).alloc| == |g.values|
    ensures StateBefore(g, parallel, pc, j).alloc[v] == StateBefore(g, parallel, pc, i).alloc[v]
    ensures v in Prior(g, pc, j)
  {
    hide WellFormed, AllKernels, StateBefore, PlaceOne, Prior, Decide, Plannable;
    if i < j {
      AllocKept(g, parallel, pc, i, j - 1, v);
      PlacedNext(g, parallel, pc, j - 1);
      PlaceOneAlloc(g, parallel, StateBefore(g, parallel, pc, j - 1), g.nodes[pc], j - 1);
      PriorStep(g, pc, j - 1);
    }
  }

  lemma {:induction false} AllocStays(g: Graph, parallel: bool, pc: nat, q: nat, v: nat)
    requires WellFormed(g) && AllKernels(g) && pc <= q <= |g.nodes| && v in Defined(g, pc) && v < |g.values|
    ensures |StateAt(g, parallel, pc).alloc| == |StateAt(g, parallel, q).alloc| == |g.values|
    ensures StateAt(g, parallel, q).alloc[v] == StateAt(g, parallel, pc).alloc[v]
  {
    hide WellFormed, AllKernels, StateBefore, StateAt, Prior, Defined;
    if pc < q {
      AllocStays(g, parallel, pc, q - 1, v);
      DefinedGrows(g, pc, q - 1);
      PriorAll(g, q - 1);
      AllocKept(g, parallel, q - 1, 0, |g.nodes[q - 1].outputs|, v);
      PlacedFirst(g, parallel, q - 1);
      StepKeepsBuffer(g, parallel, q - 1);
    }
  }

  /** The finished plan says of every output what was decided when its turn came. */
  lemma PlanRecords(g: Graph, parallel: bool, plan: Plan, pc: nat, j: nat)
    requires WellFormed(g) && AllKernels(g) && Made(g, parallel, plan)
    requires pc < |g.nodes| && j < |g.nodes[pc].outputs| && g.nodes[pc].outputs[j].Some?
    ensures var d, s := DecisionAt(g, parallel, pc, j), StateBefore(g, parallel, pc, j);
            var o := g.nodes[pc].outputs[j].value;
            && o < |plan.alloc| == |s.buffer|
            && (d.Own? ==> plan.alloc[o].kind == d.kind)
            && (d.TakeAlias? || d.TakeInplace? ==>
                  d.input < |s.buffer| && plan.alloc[o] == AllocPlan(Reuse, s.buffer[d.input]))
            && (d.TakeFree? ==>
                  && d.entry < |s.freelist| && s.freelist[d.entry].mlValue < |s.buffer|
                  && plan.alloc[o] == AllocPlan(Reuse, s.buffer[s.freelist[d.entry].mlValue]))
  {
    hide WellFormed, AllKernels, StateBefore, StateAt, Prior, Defined, Decide, PlaceOne, DecisionAt, Released,
      Plannable;
    var node, n := g.nodes[pc], |g.nodes[pc].outputs|;
    PlacedNext(g, parallel, pc, j);
    PlaceOneAlloc(g, parallel, StateBefore(g, parallel, pc, j), node, j);
    PlaceOneBuffer(g, parallel, StateBefore(g, parallel, pc, j), node, j);
    PriorStep(g, pc, j);
    AllocKept(g, parallel, pc, j + 1, n, node.outputs[j].value);
    PriorAll(g, pc);
    StepKeepsBuffer(g, parallel, pc);
    AllocStays(g, parallel, pc + 1, |g.nodes|, node.outputs[j].value);
  }

  /** What comes from outside is never allocated by a run, but for weights that no node reads. */
  lemma SourcesRecorded(g: Graph, parallel: bool, plan: Plan, v: nat)
    requires WellFormed(g) && AllKernels(g) && Made(g, parallel, plan) && v in Sources(g)
    ensures v < |plan.alloc|
    ensures plan.alloc[v].kind.AllocateStatically? <==> v in g.initializers && ReadByNode(g, v)
    ensures plan.alloc[v].kind.PreExisting? <==>
              (v in g.inputs || v in g.outerScope) && !(v in g.initializers && ReadByNode(g, v))
    ensures plan.alloc[v].kind.Allocate? <==> v !in g.inputs && v !in g.outerScope && !ReadByNode(g, v)
  {
    hide AllKernels, StateAt, Released, ReadByNode;
    assert v in Defined(g, 0) && IsSource(g, v);
    AllocStays(g, parallel, 0, |g.nodes|, v);
    StartsInitial(g, parallel);
  }

  lemma StartsInitial(g: Graph, parallel: bool)
    requires WellFormed(g) && AllKernels(g)
    ensures StateAt(g, parallel, 0) == InitialState(g)
  {
    hide InitialState;
  }
}
