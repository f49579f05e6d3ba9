/** What holds at every point of the planner's walk, and exactly when the plan it ends with is safe. */
module PlannerRun {
  import opened Wrappers
  import opened Counting
  import opened GraphModel
  import opened PlanSafety
  import opened PlannerInvariant
  import opened PlannerSpec
  import opened Placement
  import opened PlannerSteps

  // ----- what a decision says

  lemma DecideFacts(g: Graph, parallel: bool, s: PlanState, node: Node, j: nat)
    requires Sized(g, s) && Plannable(g, node) && j < |node.outputs|
    ensures var d, n := Decide(g, parallel, s, node, j), ArgNumber(node, j);
            && (d.Missing? <==> node.outputs[j].None?)
            && (d.Own? ==> d.kind == if node.outputs[j].value in g.outputs then AllocateOutput else Allocate)
            && (d.TakeAlias? || d.TakeInplace? || d.TakeFree? ==>
                  var o := node.outputs[j].value; o < |g.values| && o !in g.outputs && g.values[o].isTensor)
            && (d.TakeAlias? ==> exists k :: FirstAlias(node, n, k, d.input))
            && (d.TakeInplace? ==>
                  NoAlias(node, n) && exists k :: FirstInplace(g, s.useCount, s.buffer, node, n, k, d.input))
            && (d.TakeFree? ==> d.entry < |s.freelist| && !parallel && NoAlias(node, n)
                                && FirstFit(g, s.freelist, d.entry, node.outputs[j].value))
  {
    hide SameSize, Fits, InplaceHit, AliasHit;
    var d, n := Decide(g, parallel, s, node, j), ArgNumber(node, j);
    if d.TakeAlias? {
      var a := FindAlias(node, n, 0).value;
      assert FirstAlias(node, n, a, d.input) by { AliasInput(node, a, n); }
    } else if d.TakeInplace? {
      var i := FindInplace(g, s.useCount, s.buffer, node, n, 0).value;
      assert FirstInplace(g, s.useCount, s.buffer, node, n, i, d.input) by {
        InplaceInput(g, s.useCount, s.buffer, node, i, n);
      }
    }
  }

  lemma AliasInput(node: Node, k: nat, n: nat)
    requires node.kernelDef.Some? && k < |node.kernelDef.value.alias| && AliasHit(node, k, n)
    ensures InputAt(node, node.kernelDef.value.alias[k].0).Some? && node.kernelDef.value.alias[k].1 == n
  {
  }

  lemma InplaceInput(g: Graph, useCount: seq<int>, buffer: seq<nat>, node: Node, k: nat, n: nat)
    requires node.kernelDef.Some? && k < |node.kernelDef.value.inplace| && InplaceHit(g, useCount, buffer, node, k, n)
    ensures InputAt(node, node.kernelDef.value.inplace[k].0).Some? && node.kernelDef.value.inplace[k].1 == n
  {
  }

  // ----- the planner's walk, point by point

  ghost predicate ReadyAt(good: bool, g: Graph, parallel: bool, pc: nat)
    requires WellFormed(g) && AllKernels(g) && pc <= |g.nodes|
  {
    var s := StateAt(g, parallel, pc);
    Ready(good, g, s.useCount, s.buffer, s.freelist, s.alloc, pc)
  }

  ghost predicate PlacingAt(good: bool, g: Graph, parallel: bool, pc: nat, j: nat)
    requires WellFormed(g) && AllKernels(g) && pc < |g.nodes| && j <= |g.nodes[pc].outputs|
  {
    var s := StateBefore(g, parallel, pc, j);
    Placing(good, g, s.useCount, s.buffer, s.freelist, s.alloc, pc, j)
  }

  ghost predicate BeforeAt(g: Graph, parallel: bool, pc: nat, j: nat)
    requires WellFormed(g) && AllKernels(g) && pc < |g.nodes| && j <= |g.nodes[pc].outputs|
  {
    var s := StateBefore(g, parallel, pc, j);
    Before(g, s.useCount, s.buffer, s.freelist, pc, j)
  }

  lemma PlacedNext(g: Graph, parallel: bool, pc: nat, j: nat)
    requires WellFormed(g) && AllKernels(g) && pc < |g.nodes| && j < |g.nodes[pc].outputs|
    ensures Plannable(g, g.nodes[pc]) && g.nodes[pc].kernelDef.Some?
    ensures StateBefore(g, parallel, pc, j + 1) ==
            PlaceOne(g, parallel, StateBefore(g, parallel, pc, j), g.nodes[pc], j)
    ensures DecisionAt(g, parallel, pc, j) == Decide(g, parallel, StateBefore(g, parallel, pc, j), g.nodes[pc], j)
  {
    NodePlannable(g, pc);
    hide WellFormed, AllKernels, NodeInRange, PlaceOne, StateAt, Decide;
  }

  lemma PlacedFirst(g: Graph, parallel: bool, pc: nat)
    requires WellFormed(g) && AllKernels(g) && pc < |g.nodes|
    ensures StateBefore(g, parallel, pc, 0) == StateAt(g, parallel, pc)
  {
  }

  /** What a decision does to the buffer map. */
  lemma PlaceOneBuffer(g: Graph, parallel: bool, s: PlanState, node: Node, j: nat)
    requires Sized(g, s) && Plannable(g, node) && j < |node.outputs|
    ensures var d, t := Decide(g, parallel, s, node, j), PlaceOne(g, parallel, s, node, j);
            && |t.buffer| == |s.buffer| == |g.values|
            && (forall v :: 0 <= v < |s.buffer| && node.outputs[j] != Some(v) ==> t.buffer[v] == s.buffer[v])
            && (d.Own? ==> t.buffer == s.buffer)
            && (d.TakeAlias? || d.TakeInplace? ==>
                  d.input < |g.values| && node.outputs[j].value < |g.values|
                  && t.buffer[node.outputs[j].value] == s.buffer[d.input])
            && (d.TakeFree? ==> d.entry < |s.freelist| && s.freelist[d.entry].mlValue < |g.values|
                                && node.outputs[j].value < |g.values|
                                && t.buffer[node.outputs[j].value] == s.buffer[s.freelist[d.entry].mlValue])
  {
    hide Decide;
    DecideFacts(g, parallel, s, node, j);
    DecideInRange(g, parallel, s, node, j);
  }

  lemma DecideInRange(g: Graph, parallel: bool, s: PlanState, node: Node, j: nat)
    requires Sized(g, s) && Plannable(g, node) && j < |node.outputs|
    ensures var d := Decide(g, parallel, s, node, j);
            d.TakeAlias? || d.TakeInplace? ==> d.input < |g.values| && exists i :: InputAt(node, i) == Some(d.input)
  {
    hide Decide;
    DecideFacts(g, parallel, s, node, j);
    var d, n := Decide(g, parallel, s, node, j), ArgNumber(node, j);
    if d.TakeAlias? {
      var k :| FirstAlias(node, n, k, d.input);
      assert InputAt(node, node.kernelDef.value.alias[k].0) == Some(d.input);
    } else if d.TakeInplace? {
      var k :| FirstInplace(g, s.useCount, s.buffer, node, n, k, d.input);
      assert InputAt(node, node.kernelDef.value.inplace[k].0) == Some(d.input);
    }
  }

  /** Values placed before output i stay where they are while the step's later outputs are placed. */
  lemma {:induction false} BufferKept(g: Graph, parallel: bool, pc: nat, i: nat, j: nat, v: nat)
    requires WellFormed(g) && AllKernels(g) && pc < |g.nodes| && i <= j <= |g.nodes[pc].outputs|
    requires v < |g.values| && v in Prior(g, pc, i)
    ensures |StateBefore(g, parallel, pc, i).buffer| == |StateBefore(g, parallel, pc, j).buffer| == |g.values|
    ensures StateBefore(g, parallel, pc, j).buffer[v] == StateBefore(g, parallel, pc, i).buffer[v]
    ensures v in Prior(g, pc, j)
  {
    hide WellFormed, AllKernels, StateBefore, PlaceOne, Prior, Decide, Plannable;
    if i < j {
      BufferKept(g, parallel, pc, i, j - 1, v);
      PlacedNext(g, parallel, pc, j - 1);
      PlaceOneBuffer(g, parallel, StateBefore(g, parallel, pc, j - 1), g.nodes[pc], j - 1);
      PriorStep(g, pc, j - 1);
    }
  }

  /** An input of step pc is defined, still needed, and does not move during the step. */
  lemma DecidedInput(g: Graph, parallel: bool, pc: nat, j: nat)
    requires WellFormed(g) && AllKernels(g) && pc < |g.nodes| && j < |g.nodes[pc].outputs|
    ensures var d := DecisionAt(g, parallel, pc, j);
            d.TakeAlias? || d.TakeInplace? ==>
              && d.input < |g.values| && d.input in Defined(g, pc) && d.input in Existing(g.nodes[pc].inputs)
              && d.input in Events(g, pc)
  {
    hide WellFormed, AllKernels, StateBefore, Decide, Defined, Events, Existing;
    PlacedNext(g, parallel, pc, j);
    DecideInRange(g, parallel, StateBefore(g, parallel, pc, j), g.nodes[pc], j);
    var d := DecisionAt(g, parallel, pc, j);
    if d.TakeAlias? || d.TakeInplace? {
      var i :| InputAt(g.nodes[pc], i) == Some(d.input);
      InputIsRead(g, pc, i);
    }
  }

  // ----- who shares a buffer with an input that is still needed

  lemma BeforeBuffer(g: Graph, useCount: seq<int>, buffer: seq<nat>, freelist: seq<FreeBufferInfo>, pc: nat, j: nat,
                     x: nat, o: nat)
    requires Before(g, useCount, buffer, freelist, pc, j) && x < |g.values| && o < |g.values|
    requires x in Prior(g, pc, j) && o !in Prior(g, pc, j)
    ensures |buffer| == |g.values| && buffer[o] == o && buffer[x] != o
  {
  }

  lemma FreeIsUnneeded(g: Graph, useCount: seq<int>, buffer: seq<nat>, freelist: seq<FreeBufferInfo>, pc: nat, j: nat,
                       x: nat, k: nat)
    requires Before(g, useCount, buffer, freelist, pc, j) && x in Events(g, pc) && x < |buffer| && k < |freelist|
    ensures freelist[k].mlValue < |buffer| && buffer[freelist[k].mlValue] == freelist[k].mlValue != buffer[x]
  {
    assert freelist[k] in freelist;
    ListedIsDead(g, useCount, buffer, freelist, pc, j, freelist[k].mlValue);
  }

  lemma SharerIsTaken(g: Graph, parallel: bool, pc: nat, i: nat, j: nat, x: nat)
    requires WellFormed(g) && AllKernels(g) && pc < |g.nodes| && i < j <= |g.nodes[pc].outputs|
    requires BeforeAt(g, parallel, pc, i) && g.nodes[pc].outputs[i].Some? && g.nodes[pc].outputs[i].value < |g.values|
    requires x < |g.values| && x in Defined(g, pc) && x in Events(g, pc)
    requires |StateBefore(g, parallel, pc, j).buffer| == |g.values|
    requires StateBefore(g, parallel, pc, j).buffer[g.nodes[pc].outputs[i].value] ==
             StateBefore(g, parallel, pc, j).buffer[x]
    ensures var d, s := DecisionAt(g, parallel, pc, i), StateBefore(g, parallel, pc, i);
            && (d.TakeAlias? || d.TakeInplace?) && d.input < |g.values| == |s.buffer|
            && s.buffer[d.input] == StateBefore(g, parallel, pc, j).buffer[x]
  {
    hide WellFormed, AllKernels, StateBefore, Decide, Defined, Events, PlaceOne, Prior, Plannable, Before, Sized;
    var s, o := StateBefore(g, parallel, pc, i), g.nodes[pc].outputs[i].value;
    PlacedNext(g, parallel, pc, i);
    PriorStep(g, pc, i);
    PriorCovers(g, pc, i);
    BufferKept(g, parallel, pc, i, j, x);
    BufferKept(g, parallel, pc, i + 1, j, o);
    PlaceOneBuffer(g, parallel, s, g.nodes[pc], i);
    DecideFacts(g, parallel, s, g.nodes[pc], i);
    BeforeBuffer(g, s.useCount, s.buffer, s.freelist, pc, i, x, o);
    var d := DecisionAt(g, parallel, pc, i);
    if d.TakeFree? {
      FreeIsUnneeded(g, s.useCount, s.buffer, s.freelist, pc, i, x, d.entry);
    }
  }

  lemma TakenIs(g: Graph, parallel: bool, pc: nat, j: nat)
    requires WellFormed(g) && AllKernels(g) && pc < |g.nodes| && j < |g.nodes[pc].outputs|
    ensures |StateBefore(g, parallel, pc, j).buffer| == |g.values|
    ensures var d, r := DecisionAt(g, parallel, pc, j), Taken(g, parallel, pc, j);
            && (r.Some? <==> d.TakeAlias? || d.TakeInplace?)
            && (r.Some? ==> d.input < |g.values| && r.value == StateBefore(g, parallel, pc, j).buffer[d.input])
  {
    hide WellFormed, AllKernels, StateBefore, DecisionAt, Defined, Events, Existing;
    DecidedInput(g, parallel, pc, j);
  }

  /** Which aliases are offered depends only on where the inputs live. */
  lemma AliasOfferedFrame(g: Graph, a: seq<nat>, b: seq<nat>, pc: nat, j: nat, r: nat)
    requires WellFormed(g) && pc < |g.nodes| && g.nodes[pc].kernelDef.Some? && |a| == |b| == |g.values|
    requires forall v :: v in Defined(g, pc) && v < |a| ==> a[v] == b[v]
    requires AliasOffered(g.nodes[pc], a, j, r)
    ensures AliasOffered(g.nodes[pc], b, j, r)
  {
    hide WellFormed, Defined, Events, Existing;
    var node := g.nodes[pc];
    var k: nat :| AliasNames(node, a, k, j, r);
    InputIsRead(g, pc, node.kernelDef.value.alias[k].0);
    assert AliasNames(node, b, k, j, r);
  }

  /** Being declared to alias, said in terms of the lookup. */
  lemma AliasedIsOffered(g: Graph, root: seq<nat>, pc: nat, j: nat, o: nat)
    requires WellFormed(g) && pc < |g.nodes| && Plannable(g, g.nodes[pc]) && Covers(g, root) && o < |g.values|
    ensures Aliased(g, root, pc, j, o) <==> AliasOffered(g.nodes[pc], root, j, root[o])
  {
    hide WellFormed, Defined, Events, Existing;
    var node, r := g.nodes[pc], root[o];
    if Aliased(g, root, pc, j, o) {
      var k: nat :| AliasPair(g, root, node, k, j, r);
      assert AliasNames(node, root, k, j, r);
    }
    if AliasOffered(node, root, j, r) {
      var k: nat :| AliasNames(node, root, k, j, r);
      assert AliasPair(g, root, node, k, j, r);
    }
  }

  /** Whoever shares a buffer with an input that a later output takes aliases it, unless there is a clash. */
  lemma EarlierIsAliased(g: Graph, parallel: bool, pc: nat, i: nat, j: nat)
    requires WellFormed(g) && AllKernels(g) && pc < |g.nodes| && i < j < |g.nodes[pc].outputs|
    requires BeforeAt(g, parallel, pc, i) && g.nodes[pc].outputs[i].Some? && g.nodes[pc].outputs[i].value < |g.values|
    requires !Clash(g, parallel, pc, i, j) && Taken(g, parallel, pc, j).Some?
    requires Covers(g, StateBefore(g, parallel, pc, j).buffer) && |StateBefore(g, parallel, pc, j).buffer| == |g.values|
    requires StateBefore(g, parallel, pc, j).buffer[g.nodes[pc].outputs[i].value] == Taken(g, parallel, pc, j).value
    ensures Aliased(g, StateBefore(g, parallel, pc, j).buffer, pc, i, g.nodes[pc].outputs[i].value)
  {
    hide WellFormed, AllKernels, StateBefore, Decide, Defined, Events, Prior, BeforeAt, Aliased, DecisionAt, Covers,
      Taken, AliasOffered, Plannable;
    var r, s, t := Taken(g, parallel, pc, j).value, StateBefore(g, parallel, pc, i), StateBefore(g, parallel, pc, j);
    TakenIs(g, parallel, pc, j);
    DecidedInput(g, parallel, pc, j);
    SharerIsTaken(g, parallel, pc, i, j, DecisionAt(g, parallel, pc, j).input);
    TakenIs(g, parallel, pc, i);
    PlacedNext(g, parallel, pc, i);
    InputsKept(g, parallel, pc, i, j);
    AliasOfferedFrame(g, s.buffer, t.buffer, pc, i, r);
    AliasedIsOffered(g, t.buffer, pc, i, g.nodes[pc].outputs[i].value);
  }

  lemma InputsKept(g: Graph, parallel: bool, pc: nat, i: nat, j: nat)
    requires WellFormed(g) && AllKernels(g) && pc < |g.nodes| && i <= j <= |g.nodes[pc].outputs|
    ensures |StateBefore(g, parallel, pc, i).buffer| == |StateBefore(g, parallel, pc, j).buffer| == |g.values|
    ensures forall v :: v in Defined(g, pc) && v < |g.values| ==>
              StateBefore(g, parallel, pc, i).buffer[v] == StateBefore(g, parallel, pc, j).buffer[v]
  {
    hide WellFormed, AllKernels, StateBefore, Defined, Prior;
    PriorCovers(g, pc, i);
    forall v | v in Defined(g, pc) && v < |g.values|
      ensures StateBefore(g, parallel, pc, i).buffer[v] == StateBefore(g, parallel, pc, j).buffer[v]
    {
      BufferKept(g, parallel, pc, i, j, v);
    }
  }

  // ----- every decision keeps the invariant, and a clean one the safety of the step

  /** The assumptions under which safety is claimed, apart from what has been shown for the walk itself. */
  ghost predicate Sound(good: bool, g: Graph, parallel: bool)
    requires WellFormed(g) && AllKernels(g)
  {
    good ==> Clean(g, parallel)
             && forall pc: nat, j: nat :: pc < |g.nodes| && j <= |g.nodes[pc].outputs| ==> BeforeAt(g, parallel, pc, j)
  }

  lemma SoundStep(g: Graph, parallel: bool, pc: nat, i: nat, j: nat)
    requires WellFormed(g) && AllKernels(g) && Sound(true, g, parallel) && pc < |g.nodes|
             && i < j < |g.nodes[pc].outputs|
    ensures BeforeAt(g, parallel, pc, i) && !Clash(g, parallel, pc, i, j)
  {
    hide WellFormed, AllKernels, BeforeAt, Clash;
    assert CleanStep(g, parallel, pc);
  }

  lemma SoundOutput(g: Graph, parallel: bool, pc: nat, j: nat)
    requires WellFormed(g) && AllKernels(g) && Sound(true, g, parallel) && pc < |g.nodes| && j < |g.nodes[pc].outputs|
    ensures !Misdirected(g, parallel, pc, j) && !AliasesNonTensor(g, parallel, pc, j)
  {
    hide WellFormed, AllKernels, BeforeAt, Clash, Misdirected, AliasesNonTensor;
    assert CleanStep(g, parallel, pc);
  }

  /** Output j can go into buffer r as an alias. */
  lemma AliasIsSafe(g: Graph, parallel: bool, pc: nat, j: nat, k: nat)
    requires WellFormed(g) && AllKernels(g) && Sound(true, g, parallel) && pc < |g.nodes| && j < |g.nodes[pc].outputs|
    requires PlacingAt(true, g, parallel, pc, j) && Taken(g, parallel, pc, j).Some? && g.nodes[pc].outputs[j].Some?
    requires g.nodes[pc].kernelDef.Some?
    requires AliasNames(g.nodes[pc], StateBefore(g, parallel, pc, j).buffer, k, j, Taken(g, parallel, pc, j).value)
    ensures var b, o := StateBefore(g, parallel, pc, j).buffer, g.nodes[pc].outputs[j].value;
            && o < |b| == |g.values| && Covers(g, b)
            && StepSafe(g, b[o := Taken(g, parallel, pc, j).value], pc, j + 1)
  {
    hide *;
    var node, s, r := g.nodes[pc], StateBefore(g, parallel, pc, j), Taken(g, parallel, pc, j).value;
    PlacingAtFacts(true, g, parallel, pc, j);
    PlacedNext(g, parallel, pc, j);
    forall i: nat | i < j && node.outputs[i].Some? && node.outputs[i].value < |s.buffer|
                    && s.buffer[node.outputs[i].value] == r
      ensures Aliased(g, s.buffer, pc, i, node.outputs[i].value)
    {
      SoundStep(g, parallel, pc, i, j);
      EarlierIsAliased(g, parallel, pc, i, j);
    }
    OnlyAliasesFrom(g, s.buffer, pc, j, r);
    NamesPair(g, s.buffer, node, k, j, r);
    PlaceAlias(g, s.useCount, s.buffer, s.freelist, pc, j, k, r);
  }

  lemma NamesPair(g: Graph, buffer: seq<nat>, node: Node, k: nat, j: nat, r: nat)
    requires Plannable(g, node) && Covers(g, buffer) && AliasNames(node, buffer, k, j, r)
    ensures NodeInRange(g, node) && AliasPair(g, buffer, node, k, j, r)
  {
  }

  lemma AliasedTensor(g: Graph, parallel: bool, pc: nat, j: nat)
    requires WellFormed(g) && AllKernels(g) && pc < |g.nodes| && j < |g.nodes[pc].outputs|
    requires !AliasesNonTensor(g, parallel, pc, j) && Taken(g, parallel, pc, j).Some?
    ensures DecisionAt(g, parallel, pc, j).input < |g.values|
    ensures g.values[DecisionAt(g, parallel, pc, j).input].isTensor
  {
    hide WellFormed, AllKernels, StateBefore, Decide, NodeInRange, SameSize;
    var node, s, d := g.nodes[pc], StateBefore(g, parallel, pc, j), DecisionAt(g, parallel, pc, j);
    if d.TakeInplace? {
      PlacedNext(g, parallel, pc, j);
      DecideFacts(g, parallel, s, node, j);
      var k :| FirstInplace(g, s.useCount, s.buffer, node, ArgNumber(node, j), k, d.input);
      InplaceParts(g, s.useCount, s.buffer, node, ArgNumber(node, j), k, d.input);
    }
  }

  /** In a clean walk an output that takes over a buffer of an input is placed safely. */
  lemma TakenIsSafe(g: Graph, parallel: bool, pc: nat, j: nat)
    requires WellFormed(g) && AllKernels(g) && Sound(true, g, parallel) && pc < |g.nodes| && j < |g.nodes[pc].outputs|
    requires PlacingAt(true, g, parallel, pc, j) && Taken(g, parallel, pc, j).Some?
    ensures var d, o := DecisionAt(g, parallel, pc, j), g.nodes[pc].outputs[j];
            var b := StateBefore(g, parallel, pc, j).buffer;
            && d.input < |g.values| == |b| && g.values[d.input].isTensor && o.Some? && o.value < |b| && Covers(g, b)
            && StepSafe(g, b[o.value := b[d.input]], pc, j + 1)
  {
    hide *;
    var node, s, r := g.nodes[pc], StateBefore(g, parallel, pc, j), Taken(g, parallel, pc, j).value;
    PlacingAtFacts(true, g, parallel, pc, j);
    PlacedNext(g, parallel, pc, j);
    DecideFacts(g, parallel, s, node, j);
    TakenIs(g, parallel, pc, j);
    SoundOutput(g, parallel, pc, j);
    AliasedTensor(g, parallel, pc, j);
    var alias, k := OfferedBy(g, parallel, pc, j);
    if alias {
      AliasIsSafe(g, parallel, pc, j, k);
    } else {
      InplaceFrom(g, s, node, k, j, r);
      PlaceInplace(g, s.useCount, s.buffer, s.freelist, pc, j, k, r);
    }
  }

  /** The pair that offers a taken buffer. */
  lemma OfferedBy(g: Graph, parallel: bool, pc: nat, j: nat) returns (alias: bool, k: nat)
    requires WellFormed(g) && AllKernels(g) && pc < |g.nodes| && j < |g.nodes[pc].outputs|
    requires !Misdirected(g, parallel, pc, j) && Taken(g, parallel, pc, j).Some? && g.nodes[pc].kernelDef.Some?
    ensures var s, r := StateBefore(g, parallel, pc, j), Taken(g, parallel, pc, j).value;
            && (alias ==> AliasNames(g.nodes[pc], s.buffer, k, j, r))
            && (!alias ==> InplaceNames(g, s, g.nodes[pc], k, j, r))
  {
    hide WellFormed, AllKernels, StateBefore, Taken, AliasNames, InplaceNames;
    var s, r := StateBefore(g, parallel, pc, j), Taken(g, parallel, pc, j).value;
    if AliasOffered(g.nodes[pc], s.buffer, j, r) {
      alias := true;
      k :| AliasNames(g.nodes[pc], s.buffer, k, j, r);
    } else {
      alias := false;
      k :| InplaceNames(g, s, g.nodes[pc], k, j, r);
    }
  }

  lemma InplaceFrom(g: Graph, s: PlanState, node: Node, k: nat, j: nat, r: nat)
    requires Plannable(g, node) && InplaceNames(g, s, node, k, j, r)
    ensures NodeInRange(g, node) && k < |node.kernelDef.value.inplace| && node.kernelDef.value.inplace[k].1 == j
    ensures var x := InputAt(node, node.kernelDef.value.inplace[k].0);
            && j < |node.outputs| && node.outputs[j].Some? && node.outputs[j].value < |g.values|
            && x.Some? && x.value < |g.values| && x.value < |s.buffer| && SameSize(g, x.value, node.outputs[j].value)
            && s.buffer[x.value] == r && r < |s.useCount| && s.useCount[r] == 1
  {
    hide SameSize;
  }

  lemma OnlyAliasesFrom(g: Graph, buffer: seq<nat>, pc: nat, j: nat, r: nat)
    requires Covers(g, buffer) && pc < |g.nodes| && j <= |g.nodes[pc].outputs|
    requires forall i: nat :: i < j && g.nodes[pc].outputs[i].Some? && g.nodes[pc].outputs[i].value < |buffer|
                              && buffer[g.nodes[pc].outputs[i].value] == r ==>
               g.nodes[pc].outputs[i].value < |g.values| && Aliased(g, buffer, pc, i, g.nodes[pc].outputs[i].value)
    ensures OnlyAliases(g, buffer, pc, j, r)
  {
    hide Aliased;
  }

  lemma PlacingAtFacts(good: bool, g: Graph, parallel: bool, pc: nat, j: nat)
    requires WellFormed(g) && AllKernels(g) && pc < |g.nodes| && j <= |g.nodes[pc].outputs|
    requires PlacingAt(good, g, parallel, pc, j)
    ensures var s := StateBefore(g, parallel, pc, j);
            && Before(g, s.useCount, s.buffer, s.freelist, pc, j) && Covers(g, s.buffer) && |s.buffer| == |g.values|
            && Placing(good, g, s.useCount, s.buffer, s.freelist, s.alloc, pc, j)
            && (good ==> StepSafe(g, s.buffer, pc, j)) && Sized(g, s)
            && (j < |g.nodes[pc].outputs| && g.nodes[pc].outputs[j].Some? ==> g.nodes[pc].outputs[j].value < |g.values|)
  {
    hide WellFormed, AllKernels, Before, AllocOk, StepsSafe, StepSafe, StateBefore, Sized;
    var s := StateBefore(g, parallel, pc, j);
    PlacingBefore(good, g, s.useCount, s.buffer, s.freelist, s.alloc, pc, j);
    Sizes(good, g, s.useCount, s.buffer, s.freelist, s.alloc, pc, j);
    BeforeFacts(g, s.useCount, s.buffer, s.freelist, pc, j);
  }

  lemma InplaceParts(g: Graph, useCount: seq<int>, buffer: seq<nat>, node: Node, n: nat, k: int, x: nat)
    requires Plannable(g, node) && FirstInplace(g, useCount, buffer, node, n, k, x)
    ensures NodeInRange(g, node) && 0 <= k < |node.kernelDef.value.inplace| && node.kernelDef.value.inplace[k].1 == n
    ensures InputAt(node, node.kernelDef.value.inplace[k].0) == Some(x) && x < |buffer| && x < |g.values|
    ensures n < |node.outputs| && node.outputs[n].Some? && node.outputs[n].value < |g.values|
    ensures SameSize(g, x, node.outputs[n].value) && buffer[x] < |useCount| && useCount[buffer[x]] == 1
    ensures g.values[x].isTensor
  {
  }

  lemma PlaceDecided(good: bool, g: Graph, parallel: bool, pc: nat, j: nat)
    requires WellFormed(g) && AllKernels(g) && Sound(good, g, parallel) && pc < |g.nodes| && j < |g.nodes[pc].outputs|
    requires PlacingAt(good, g, parallel, pc, j)
    ensures PlacingAt(good, g, parallel, pc, j + 1)
  {
    hide *;
    var node, s := g.nodes[pc], StateBefore(g, parallel, pc, j);
    PlacingAtFacts(good, g, parallel, pc, j);
    PlacedNext(g, parallel, pc, j);
    DecideFacts(g, parallel, s, node, j);
    DecidedInput(g, parallel, pc, j);
    TakenIs(g, parallel, pc, j);
    PlaceOneIs(g, parallel, s, node, j);
    PlacingAtIs(good, g, parallel, pc, j + 1);
    var d := DecisionAt(g, parallel, pc, j);
    match d
    case Missing => SkipMissing(good, g, s.useCount, s.buffer, s.freelist, s.alloc, pc, j);
    case Own(kind) => PlaceOwn(good, g, s.useCount, s.buffer, s.freelist, s.alloc, pc, j, kind);
    case TakeAlias(x) =>
      JoinFields(g, s, StateBefore(g, parallel, pc, j + 1), x, node.outputs[j].value);
      if good { TakenIsSafe(g, parallel, pc, j); }
      ShareInput(good, g, s.useCount, s.buffer, s.freelist, s.alloc, pc, j, x);
    case TakeInplace(x) =>
      JoinFields(g, s, StateBefore(g, parallel, pc, j + 1), x, node.outputs[j].value);
      if good { TakenIsSafe(g, parallel, pc, j); }
      ShareInput(good, g, s.useCount, s.buffer, s.freelist, s.alloc, pc, j, x);
    case TakeFree(k) =>
      var r := s.freelist[k].mlValue;
      JoinFields(g, s.(freelist := RemoveAt(s.freelist, k)), StateBefore(g, parallel, pc, j + 1), r,
                 node.outputs[j].value);
      FitIsFree(g, s.freelist, k, node.outputs[j].value);
      ShareFree(good, g, s.useCount, s.buffer, s.freelist, RemoveAt(s.freelist, k), s.alloc, pc, j, r);
  }

  lemma FitIsFree(g: Graph, freelist: seq<FreeBufferInfo>, k: nat, o: nat)
    requires k < |freelist| && o < |g.values| && FirstFit(g, freelist, k, o)
    ensures var r := freelist[k].mlValue;
            r < |g.values| && Listed(freelist, r) && Without(freelist, RemoveAt(freelist, k), r) && SameSize(g, r, o)
  {
    assert freelist[k] in freelist;
  }

  lemma PlacingAtIs(good: bool, g: Graph, parallel: bool, pc: nat, j: nat)
    requires WellFormed(g) && AllKernels(g) && pc < |g.nodes| && j <= |g.nodes[pc].outputs|
    ensures var s := StateBefore(g, parallel, pc, j);
            PlacingAt(good, g, parallel, pc, j) <==> Placing(good, g, s.useCount, s.buffer, s.freelist, s.alloc, pc, j)
  {
  }

  /** The effect of each decision, field by field. */
  lemma PlaceOneIs(g: Graph, parallel: bool, s: PlanState, node: Node, j: nat)
    requires Sized(g, s) && Plannable(g, node) && j < |node.outputs|
    ensures var d, t := Decide(g, parallel, s, node, j), PlaceOne(g, parallel, s, node, j);
            && (d.Missing? ==> t == s)
            && (d.Own? ==> var o := node.outputs[j].value;
                           o < |s.alloc| && t == s.(alloc := s.alloc[o := s.alloc[o].(kind := d.kind)]))
            && (d.TakeAlias? || d.TakeInplace? ==> Joined(g, s, t, d.input, node.outputs[j].value))
            && (d.TakeFree? ==> d.entry < |s.freelist|
                                && Joined(g, s.(freelist := RemoveAt(s.freelist, d.entry)), t,
                                          s.freelist[d.entry].mlValue, node.outputs[j].value))
  {
    hide Decide;
    DecideFacts(g, parallel, s, node, j);
    DecideInRange(g, parallel, s, node, j);
  }

  lemma JoinFields(g: Graph, s: PlanState, t: PlanState, older: nat, o: nat)
    requires Joined(g, s, t, older, o)
    ensures |s.useCount| == |s.buffer| == |s.alloc| == |g.values| && older < |g.values| && o < |g.values|
    ensures var b := s.buffer[older];
            && b < |g.values| && t.useCount == s.useCount[b := s.useCount[b] + s.useCount[o]]
            && t.buffer == s.buffer[o := b] && t.freelist == s.freelist && t.alloc == s.alloc[o := AllocPlan(Reuse, b)]
  {
  }

  ghost predicate Joined(g: Graph, s: PlanState, t: PlanState, older: nat, o: nat) {
    Sized(g, s) && older < |g.values| && o < |g.values| && t == Join(g, s, older, o)
  }

  // ----- releasing what the step touched

  ghost predicate ReleasingAt(good: bool, g: Graph, s: PlanState, pc: nat, events: seq<nat>) {
    Releasing(good, g, s.useCount, s.buffer, s.freelist, s.alloc, pc, events)
  }

  lemma ExistingHead(args: seq<Option<nat>>, i: nat)
    requires i < |args|
    ensures Existing(args[i..]) ==
            if args[i].Some? then [args[i].value] + Existing(args[i + 1..]) else Existing(args[i + 1..])
  {
    assert args[i..][1..] == args[i + 1..];
  }

  lemma ReleaseToNext(g: Graph, s: PlanState, args: seq<Option<nat>>, pc: nat, i: nat)
    requires Sized(g, s) && ArgsInRange(g, args) && i < |args|
    ensures args[i].Some? ==> args[i].value < |g.values|
    ensures ReleaseTo(g, s, args, pc, i + 1) ==
            if args[i].Some? then ReleaseValue(g, ReleaseTo(g, s, args, pc, i), args[i].value, pc)
            else ReleaseTo(g, s, args, pc, i)
  {
  }

  lemma ReleaseToNone(g: Graph, s: PlanState, args: seq<Option<nat>>, pc: nat)
    requires Sized(g, s) && ArgsInRange(g, args)
    ensures ReleaseTo(g, s, args, pc, 0) == s
  {
  }

  lemma ReleaseValueKeeps(good: bool, g: Graph, s: PlanState, pc: nat, v: nat, rest: seq<nat>)
    requires Sized(g, s) && v < |g.values| && ReleasingAt(good, g, s, pc, [v] + rest)
    requires pc < |g.nodes| && v in Touched(g.nodes[pc]) && forall w :: w in Events(g, pc + 1) ==> w in rest
    ensures ReleasingAt(good, g, ReleaseValue(g, s, v, pc), pc, rest)
  {
    hide Releasing, Touched, Events;
    ReleaseOne(good, g, s.useCount, s.buffer, s.freelist, s.alloc, pc, v, rest);
  }

  lemma {:induction false} ReleaseToKeeps(good: bool, g: Graph, s: PlanState, pc: nat, args: seq<Option<nat>>,
                                          rest: seq<nat>, i: nat)
    requires Sized(g, s) && ArgsInRange(g, args) && i <= |args| && pc < |g.nodes|
    requires ReleasingAt(good, g, s, pc, Existing(args) + rest)
    requires forall v :: Some(v) in args ==> v in Touched(g.nodes[pc])
    requires forall w :: w in Events(g, pc + 1) ==> w in rest
    ensures ReleasingAt(good, g, ReleaseTo(g, s, args, pc, i), pc, Existing(args[i..]) + rest)
  {
    hide *;
    if i == 0 {
      ReleaseToNone(g, s, args, pc);
      assert args[0..] == args;
    } else {
      ReleaseToKeeps(good, g, s, pc, args, rest, i - 1);
      ReleaseToNext(g, s, args, pc, i - 1);
      ExistingHead(args, i - 1);
      if args[i - 1].Some? {
        var v, later := args[i - 1].value, Existing(args[i..]) + rest;
        assert args[i - 1] in args;
        assert Existing(args[i - 1..]) + rest == [v] + later;
        ReleaseValueKeeps(good, g, ReleaseTo(g, s, args, pc, i - 1), pc, v, later);
      }
    }
  }

  lemma ReleaseArgsKeeps(good: bool, g: Graph, s: PlanState, pc: nat, args: seq<Option<nat>>, rest: seq<nat>)
    requires Sized(g, s) && ArgsInRange(g, args) && pc < |g.nodes|
    requires ReleasingAt(good, g, s, pc, Existing(args) + rest)
    requires forall v :: Some(v) in args ==> v in Touched(g.nodes[pc])
    requires forall w :: w in Events(g, pc + 1) ==> w in rest
    ensures ReleasingAt(good, g, ReleaseTo(g, s, args, pc, |args|), pc, rest)
  {
    hide ReleasingAt, ReleaseTo, Touched, Events, Sized, ArgsInRange;
    ReleaseToKeeps(good, g, s, pc, args, rest, |args|);
    assert args[|args|..] == [];
    assert Existing(args[|args|..]) + rest == rest;
  }

  lemma EventsOfStep(g: Graph, pc: nat)
    requires pc < |g.nodes|
    ensures var node := g.nodes[pc];
            && Touched(node) + Events(g, pc + 1) ==
               Existing(node.inputs) + (Existing(node.implicits) + (Existing(node.outputs) + Events(g, pc + 1)))
            && (forall v :: Some(v) in node.inputs || Some(v) in node.implicits || Some(v) in node.outputs ==>
                  v in Touched(node))
  {
  }

  lemma ReleaseAllKeeps(good: bool, g: Graph, s: PlanState, pc: nat)
    requires Sized(g, s) && pc < |g.nodes| && NodeInRange(g, g.nodes[pc])
    requires ReleasingAt(good, g, s, pc, Touched(g.nodes[pc]) + Events(g, pc + 1))
    ensures ReleasingAt(good, g, ReleaseAll(g, s, g.nodes[pc], pc), pc, Events(g, pc + 1))
  {
    hide ReleasingAt, ReleaseTo, Touched, Events, Sized, ArgsInRange, Existing;
    var node, later := g.nodes[pc], Events(g, pc + 1);
    EventsOfStep(g, pc);
    ReleaseArgsKeeps(good, g, s, pc, node.inputs, Existing(node.implicits) + (Existing(node.outputs) + later));
    var s1 := ReleaseTo(g, s, node.inputs, pc, |node.inputs|);
    ReleaseArgsKeeps(good, g, s1, pc, node.implicits, Existing(node.outputs) + later);
    var s2 := ReleaseTo(g, s1, node.implicits, pc, |node.implicits|);
    ReleaseArgsKeeps(good, g, s2, pc, node.outputs, later);
  }

  // ----- the whole walk

  lemma {:induction false} PlacedOk(good: bool, g: Graph, parallel: bool, pc: nat, j: nat)
    requires WellFormed(g) && AllKernels(g) && Sound(good, g, parallel) && pc < |g.nodes| && j <= |g.nodes[pc].outputs|
    requires ReadyAt(good, g, parallel, pc)
    ensures PlacingAt(good, g, parallel, pc, j)
  {
    hide WellFormed, AllKernels, Sound, PlacingAt, StateBefore, StateAt, Placing, Ready;
    if j == 0 {
      PlacedFirst(g, parallel, pc);
      var s := StateAt(g, parallel, pc);
      StartStep(good, g, s.useCount, s.buffer, s.freelist, s.alloc, pc);
      PlacingAtIs(good, g, parallel, pc, 0);
    } else {
      PlacedOk(good, g, parallel, pc, j - 1);
      PlaceDecided(good, g, parallel, pc, j - 1);
    }
  }

  lemma StateNext(g: Graph, parallel: bool, pc: nat)
    requires WellFormed(g) && AllKernels(g) && pc < |g.nodes|
    ensures Plannable(g, g.nodes[pc]) && NodeInRange(g, g.nodes[pc])
    ensures StateAt(g, parallel, pc + 1) ==
            ReleaseAll(g, StateBefore(g, parallel, pc, |g.nodes[pc].outputs|), g.nodes[pc], pc)
  {
    NodePlannable(g, pc);
    hide WellFormed, AllKernels, NodeInRange, ReleaseAll, PlaceTo;
  }

  lemma StepReady(good: bool, g: Graph, parallel: bool, pc: nat)
    requires WellFormed(g) && AllKernels(g) && pc < |g.nodes|
    requires PlacingAt(good, g, parallel, pc, |g.nodes[pc].outputs|)
    ensures ReadyAt(good, g, parallel, pc + 1)
  {
    hide *;
    var n := |g.nodes[pc].outputs|;
    var s := StateBefore(g, parallel, pc, n);
    PlacingAtIs(good, g, parallel, pc, n);
    AllPlaced(good, g, s.useCount, s.buffer, s.freelist, s.alloc, pc);
    StateNext(g, parallel, pc);
    ReleasingIs(good, g, s, pc, Touched(g.nodes[pc]) + Events(g, pc + 1));
    ReleaseAllKeeps(good, g, s, pc);
    ReleasedIsReady(good, g, parallel, pc);
  }

  lemma ReleasingIs(good: bool, g: Graph, s: PlanState, pc: nat, events: seq<nat>)
    ensures ReleasingAt(good, g, s, pc, events) <==>
            Releasing(good, g, s.useCount, s.buffer, s.freelist, s.alloc, pc, events)
  {
  }

  lemma ReleasedIsReady(good: bool, g: Graph, parallel: bool, pc: nat)
    requires WellFormed(g) && AllKernels(g) && pc < |g.nodes|
    requires ReleasingAt(good, g, StateAt(g, parallel, pc + 1), pc, Events(g, pc + 1))
    ensures ReadyAt(good, g, parallel, pc + 1)
  {
    hide WellFormed, AllKernels, StateAt, Invariant, AllocOk, StepsSafe, Events, Defined;
  }

  lemma InitialReady(good: bool, g: Graph)
    requires WellFormed(g)
    ensures var s := InitialState(g); Ready(good, g, s.useCount, s.buffer, s.freelist, s.alloc, 0)
  {
    var s := InitialState(g);
    hide Events;
    forall v | 0 <= v < |s.buffer|
      ensures s.useCount[v] == Count(Events(g, 0), s.buffer, v)
    {
      CountAlone(Events(g, 0), s.buffer, v);
    }
    forall v | 0 <= v < |s.buffer| && v in Defined(g, 0)
      ensures s.useCount[v] > 0
    {
      HeldIsNeverDead(g, v, 0);
      CountOfZero(Events(g, 0), v);
    }
  }

  lemma ReadyAtStart(good: bool, g: Graph, parallel: bool)
    requires WellFormed(g) && AllKernels(g)
    ensures ReadyAt(good, g, parallel, 0)
  {
    InitialReady(good, g);
    hide WellFormed, AllKernels, Ready, InitialState;
  }

  /** The invariant holds before every step; every placement is safe if the walk is clean. */
  lemma {:induction false} AlwaysReady(good: bool, g: Graph, parallel: bool, pc: nat)
    requires WellFormed(g) && AllKernels(g) && Sound(good, g, parallel) && pc <= |g.nodes|
    ensures ReadyAt(good, g, parallel, pc)
  {
    hide *;
    if pc == 0 {
      ReadyAtStart(good, g, parallel);
    } else {
      AlwaysReady(good, g, parallel, pc - 1);
      PlacedOk(good, g, parallel, pc - 1, |g.nodes[pc - 1].outputs|);
      StepReady(good, g, parallel, pc - 1);
    }
  }

  /** Nothing about the walk is assumed: the invariant holds before every output of every step. */
  lemma AlwaysBefore(g: Graph, parallel: bool, pc: nat, j: nat)
    requires WellFormed(g) && AllKernels(g) && pc < |g.nodes| && j <= |g.nodes[pc].outputs|
    ensures BeforeAt(g, parallel, pc, j)
  {
    hide WellFormed, AllKernels, ReadyAt, PlacingAt;
    AlwaysReady(false, g, parallel, pc);
    PlacedOk(false, g, parallel, pc, j);
    PlacingAtFacts(false, g, parallel, pc, j);
  }

  lemma CleanIsSound(g: Graph, parallel: bool)
    requires WellFormed(g) && AllKernels(g) && Clean(g, parallel)
    ensures Sound(true, g, parallel)
  {
    hide WellFormed, AllKernels, Clean, BeforeAt;
    forall pc: nat, j: nat | pc < |g.nodes| && j <= |g.nodes[pc].outputs|
      ensures BeforeAt(g, parallel, pc, j)
    {
      AlwaysBefore(g, parallel, pc, j);
    }
  }

  // ----- where a value ends up

  lemma {:induction false} ReleaseKeepsBuffer(g: Graph, s: PlanState, args: seq<Option<nat>>, pc: nat, i: nat)
    requires Sized(g, s) && ArgsInRange(g, args) && i <= |args|
    ensures ReleaseTo(g, s, args, pc, i).buffer == s.buffer && ReleaseTo(g, s, args, pc, i).alloc == s.alloc
  {
    hide Sized;
    if i > 0 { ReleaseKeepsBuffer(g, s, args, pc, i - 1); }
  }

  lemma StepKeepsBuffer(g: Graph, parallel: bool, pc: nat)
    requires WellFormed(g) && AllKernels(g) && pc < |g.nodes|
    ensures var s := StateBefore(g, parallel, pc, |g.nodes[pc].outputs|);
            StateAt(g, parallel, pc + 1).buffer == s.buffer && StateAt(g, parallel, pc + 1).alloc == s.alloc
  {
    hide WellFormed, AllKernels, StateBefore, StateAt, ReleaseTo, Sized;
    StateNext(g, parallel, pc);
    var node, s := g.nodes[pc], StateBefore(g, parallel, pc, |g.nodes[pc].outputs|);
    ReleaseKeepsBuffer(g, s, node.inputs, pc, |node.inputs|);
    var s1 := ReleaseTo(g, s, node.inputs, pc, |node.inputs|);
    ReleaseKeepsBuffer(g, s1, node.implicits, pc, |node.implicits|);
    var s2 := ReleaseTo(g, s1, node.implicits, pc, |node.implicits|);
    ReleaseKeepsBuffer(g, s2, node.outputs, pc, |node.outputs|);
  }

  /** A value that has been produced stays in its buffer to the end of the walk. */
  lemma {:induction false} BufferStays(g: Graph, parallel: bool, pc: nat, q: nat, v: nat)
    requires WellFormed(g) && AllKernels(g) && pc <= q <= |g.nodes| && v in Defined(g, pc) && v < |g.values|
    ensures |StateAt(g, parallel, pc).buffer| == |StateAt(g, parallel, q).buffer| == |g.values|
    ensures StateAt(g, parallel, q).buffer[v] == StateAt(g, parallel, pc).buffer[v]
  {
    hide WellFormed, AllKernels, StateBefore, StateAt, Prior, Defined;
    if pc < q {
      BufferStays(g, parallel, pc, q - 1, v);
      DefinedGrows(g, pc, q - 1);
      PriorAll(g, q - 1);
      BufferKept(g, parallel, q - 1, 0, |g.nodes[q - 1].outputs|, v);
      PlacedFirst(g, parallel, q - 1);
      StepKeepsBuffer(g, parallel, q - 1);
    }
  }

  lemma BufferFinal(g: Graph, parallel: bool, pc: nat, j: nat, v: nat)
    requires WellFormed(g) && AllKernels(g) && pc < |g.nodes| && j <= |g.nodes[pc].outputs|
    requires v in Prior(g, pc, j) && v < |g.values|
    ensures |StateBefore(g, parallel, pc, j).buffer| == |StateAt(g, parallel, |g.nodes|).buffer| == |g.values|
    ensures StateAt(g, parallel, |g.nodes|).buffer[v] == StateBefore(g, parallel, pc, j).buffer[v]
  {
    hide WellFormed, AllKernels, StateBefore, StateAt, Prior, Defined;
    var n := |g.nodes[pc].outputs|;
    BufferKept(g, parallel, pc, j, n, v);
    PriorAll(g, pc);
    StepKeepsBuffer(g, parallel, pc);
    BufferStays(g, parallel, pc + 1, |g.nodes|, v);
  }

  /** The buffer an output takes over is the one it has in the end. */
  lemma TakenIsFinal(g: Graph, parallel: bool, pc: nat, j: nat)
    requires WellFormed(g) && AllKernels(g) && pc < |g.nodes| && j < |g.nodes[pc].outputs|
    requires DecisionAt(g, parallel, pc, j).TakeAlias? || DecisionAt(g, parallel, pc, j).TakeInplace?
    ensures var d, o := DecisionAt(g, parallel, pc, j), g.nodes[pc].outputs[j];
            var root := StateAt(g, parallel, |g.nodes|).buffer;
            && o.Some? && o.value < |g.values| == |root| && d.input < |g.values|
            && o.value !in Defined(g, pc) && d.input in Defined(g, pc)
            && |StateBefore(g, parallel, pc, j).buffer| == |g.values|
            && root[o.value] == StateBefore(g, parallel, pc, j).buffer[d.input] == root[d.input]
  {
    hide *;
    var s := StateBefore(g, parallel, pc, j);
    PlacedNext(g, parallel, pc, j);
    DecideFacts(g, parallel, s, g.nodes[pc], j);
    DecidedInput(g, parallel, pc, j);
    PlaceOneBuffer(g, parallel, s, g.nodes[pc], j);
    PriorStep(g, pc, j);
    PriorCovers(g, pc, j);
    BufferFinal(g, parallel, pc, j, DecisionAt(g, parallel, pc, j).input);
    BufferFinal(g, parallel, pc, j + 1, g.nodes[pc].outputs[j].value);
  }
}
