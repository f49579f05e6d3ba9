/** Exactly when the planner's decisions are safe. */
module PlannerExact {
  import opened Wrappers
  import opened Counting
  import opened GraphModel
  import opened PlanSafety
  import opened PlannerInvariant
  import opened PlannerSpec
  import opened Placement
  import opened PlannerSteps
  import opened PlannerRun

  // ----- what is not clean is not safe

  /** Inputs have their final buffers while a step is planned. */
  lemma InputsFinal(g: Graph, parallel: bool, pc: nat, j: nat)
    requires WellFormed(g) && AllKernels(g) && pc < |g.nodes| && j <= |g.nodes[pc].outputs|
    ensures |StateBefore(g, parallel, pc, j).buffer| == |StateAt(g, parallel, |g.nodes|).buffer| == |g.values|
    ensures forall v :: v in Defined(g, pc) && v < |g.values| ==>
              StateAt(g, parallel, |g.nodes|).buffer[v] == StateBefore(g, parallel, pc, j).buffer[v]
  {
    hide WellFormed, AllKernels, StateBefore, StateAt, Defined, Prior;
    PriorCovers(g, pc, j);
    forall v | v in Defined(g, pc) && v < |g.values|
      ensures StateAt(g, parallel, |g.nodes|).buffer[v] == StateBefore(g, parallel, pc, j).buffer[v]
    {
      BufferFinal(g, parallel, pc, j, v);
    }
  }

  /** What the final plan declares an output to alias was offered to it. */
  lemma AliasedWasOffered(g: Graph, parallel: bool, pc: nat, j: nat)
    requires WellFormed(g) && AllKernels(g) && pc < |g.nodes| && j < |g.nodes[pc].outputs|
    requires Taken(g, parallel, pc, j).Some? && Covers(g, StateAt(g, parallel, |g.nodes|).buffer)
    requires g.nodes[pc].outputs[j].Some? && g.nodes[pc].outputs[j].value < |g.values|
    requires Aliased(g, StateAt(g, parallel, |g.nodes|).buffer, pc, j, g.nodes[pc].outputs[j].value)
    ensures g.nodes[pc].kernelDef.Some?
    ensures AliasOffered(g.nodes[pc], StateBefore(g, parallel, pc, j).buffer, j, Taken(g, parallel, pc, j).value)
  {
    hide *;
    var root := StateAt(g, parallel, |g.nodes|).buffer;
    PlacedNext(g, parallel, pc, j);
    TakenIs(g, parallel, pc, j);
    TakenIsFinal(g, parallel, pc, j);
    InputsFinal(g, parallel, pc, j);
    AliasedIsOffered(g, root, pc, j, g.nodes[pc].outputs[j].value);
    AliasOfferedFrame(g, root, StateBefore(g, parallel, pc, j).buffer, pc, j, Taken(g, parallel, pc, j).value);
  }

  lemma SafeOutputs(g: Graph, root: seq<nat>, pc: nat, i: nat, j: nat)
    requires Covers(g, root) && pc < |g.nodes| && StepSafe(g, root, pc, |g.nodes[pc].outputs|)
    requires i < j < |g.nodes[pc].outputs|
    ensures OutputSafe(g, root, pc, j) && OutputsApart(g, root, pc, i, j)
  {
    hide OutputSafe, OutputsApart;
  }

  lemma SafeOutput(g: Graph, root: seq<nat>, pc: nat, j: nat)
    requires Covers(g, root) && pc < |g.nodes| && StepSafe(g, root, pc, |g.nodes[pc].outputs|)
    requires j < |g.nodes[pc].outputs|
    ensures OutputSafe(g, root, pc, j)
  {
    hide OutputSafe, OutputsApart;
  }

  /** Two outputs that clash end up in one buffer, which not both are declared to alias. */
  lemma ClashIsUnsafe(g: Graph, parallel: bool, pc: nat, i: nat, j: nat)
    requires WellFormed(g) && AllKernels(g) && pc < |g.nodes| && i < j < |g.nodes[pc].outputs|
    requires Clash(g, parallel, pc, i, j) && Covers(g, StateAt(g, parallel, |g.nodes|).buffer)
    ensures !StepSafe(g, StateAt(g, parallel, |g.nodes|).buffer, pc, |g.nodes[pc].outputs|)
  {
    hide WellFormed, AllKernels, StateBefore, StateAt, DecisionAt, Aliased, OutputSafe, AliasOffered, Taken, StepSafe;
    var root, outs := StateAt(g, parallel, |g.nodes|).buffer, g.nodes[pc].outputs;
    TakenIs(g, parallel, pc, i);
    TakenIs(g, parallel, pc, j);
    TakenIsFinal(g, parallel, pc, i);
    TakenIsFinal(g, parallel, pc, j);
    if StepSafe(g, root, pc, |outs|) {
      SafeOutputs(g, root, pc, i, j);
      AliasedWasOffered(g, parallel, pc, i);
      AliasedWasOffered(g, parallel, pc, j);
      assert false;
    }
  }

  /** If only one argument lives in buffer r, it is counted once. */
  lemma CountSole(args: seq<Option<nat>>, q: nat, buffer: seq<nat>, r: nat)
    requires q < |args| && args[q].Some? && args[q].value < |buffer| && buffer[args[q].value] == r
    requires forall p :: 0 <= p < |args| && p != q && args[p].Some? && args[p].value < |buffer| ==>
               buffer[args[p].value] != r
    ensures Count(Existing(args), buffer, r) == 1
  {
    var front, back := args[..q], args[q + 1..];
    assert args == front + ([args[q]] + back);
    ExistingConcat(front, [args[q]] + back);
    ExistingConcat([args[q]], back);
    CountConcat(Existing(front), Existing([args[q]] + back), buffer, r);
    CountConcat(Existing([args[q]]), Existing(back), buffer, r);
    assert Existing([args[q]]) == [args[q].value];
    assert Count([args[q].value], buffer, r) == 1 by { assert [args[q].value][1..] == []; }
    hide Existing, Count;
    NoneCounted(front, buffer, r);
    NoneCounted(back, buffer, r);
  }

  lemma NoneCounted(args: seq<Option<nat>>, buffer: seq<nat>, r: nat)
    requires forall p :: 0 <= p < |args| && args[p].Some? && args[p].value < |buffer| ==> buffer[args[p].value] != r
    ensures Count(Existing(args), buffer, r) == 0
  {
    CountZero(Existing(args), buffer, r);
    hide Count;
  }

  /** Only values produced before the step live in r. */
  ghost predicate OnlyOld(g: Graph, buffer: seq<nat>, pc: nat, r: nat)
    requires pc <= |g.nodes|
  {
    forall v: nat :: v < |buffer| && buffer[v] == r ==> v in Defined(g, pc)
  }

  /** The only reader of a buffer whose values all die with the step is its last use. */
  lemma SoleIsLastUse(g: Graph, s: PlanState, pc: nat, j: nat, q: nat, r: nat)
    requires Before(g, s.useCount, s.buffer, s.freelist, pc, j) && |s.useCount| == |s.buffer| == |g.values|
    requires q < |g.nodes[pc].inputs| && g.nodes[pc].inputs[q].Some? && g.nodes[pc].inputs[q].value < |s.buffer|
    requires s.buffer[g.nodes[pc].inputs[q].value] == r && r < |s.useCount| && s.buffer[r] == r
    requires SoleReader(s.buffer, g.nodes[pc], q, r) && OnlyOld(g, s.buffer, pc, r)
    requires forall w: nat :: w < |s.buffer| && s.buffer[w] == r ==> Dead(g, w, pc + 1)
    ensures s.useCount[r] == 1
  {
    var node, b := g.nodes[pc], s.buffer;
    assert s.useCount[r] == Count(Events(g, pc), b, r);
    CountConcat(Touched(node), Events(g, pc + 1), b, r);
    ExistingConcat(node.inputs, node.implicits);
    CountConcat(Existing(Reads(node)), Existing(node.outputs), b, r);
    CountZero(Events(g, pc + 1), b, r);
    OutputsAreNew(g, pc);
    CountZero(Existing(node.outputs), b, r);
    assert Reads(node)[q] == node.inputs[q];
    hide Invariant, WellFormed, Count;
    CountSole(Reads(node), q, b, r);
  }

  lemma OutputsAreNew(g: Graph, pc: nat)
    requires WellFormed(g) && pc < |g.nodes|
    ensures forall v :: v in Existing(g.nodes[pc].outputs) ==> v !in Defined(g, pc)
  {
    assert NodeOk(g, pc);
  }

  /** What an output takes in place, as the final plan declares it, was offered to it. */
  lemma InplaceWasOffered(g: Graph, parallel: bool, pc: nat, j: nat, k: nat)
    requires WellFormed(g) && AllKernels(g) && pc < |g.nodes| && j < |g.nodes[pc].outputs|
    requires Taken(g, parallel, pc, j).Some? && Covers(g, StateAt(g, parallel, |g.nodes|).buffer)
    requires g.nodes[pc].outputs[j].Some? && g.nodes[pc].outputs[j].value < |g.values| && Plannable(g, g.nodes[pc])
    requires var root, o := StateAt(g, parallel, |g.nodes|).buffer, g.nodes[pc].outputs[j].value;
             && InplacePair(g, root, g.nodes[pc], k, j, o) && SharersDead(g, root, pc, root[o], pc + 1)
    requires OnlyOld(g, StateBefore(g, parallel, pc, j).buffer, pc, Taken(g, parallel, pc, j).value)
    ensures InplaceOffered(g, StateBefore(g, parallel, pc, j), g.nodes[pc], j, Taken(g, parallel, pc, j).value)
  {
    hide *;
    var root, s := StateAt(g, parallel, |g.nodes|).buffer, StateBefore(g, parallel, pc, j);
    var r := Taken(g, parallel, pc, j).value;
    TakenIs(g, parallel, pc, j);
    TakenIsFinal(g, parallel, pc, j);
    InputsFinal(g, parallel, pc, j);
    AlwaysBefore(g, parallel, pc, j);
    BeforeIs(g, parallel, pc, j);
    RootOfTaken(g, parallel, pc, j);
    var q := InplacePosition(g, root, s.buffer, pc, j, k, r);
    AllDie(g, root, s.buffer, pc, r);
    SoleIsLastUse(g, s, pc, j, q, r);
    NamesInplace(g, s, g.nodes[pc], k, j, r);
  }

  lemma BeforeIs(g: Graph, parallel: bool, pc: nat, j: nat)
    requires WellFormed(g) && AllKernels(g) && pc < |g.nodes| && j <= |g.nodes[pc].outputs|
    requires BeforeAt(g, parallel, pc, j)
    ensures var s := StateBefore(g, parallel, pc, j);
            Before(g, s.useCount, s.buffer, s.freelist, pc, j) && |s.useCount| == |s.buffer| == |g.values|
  {
    hide WellFormed, AllKernels, StateBefore, Before;
    SizedFields(g, StateBefore(g, parallel, pc, j));
  }

  lemma SizedFields(g: Graph, s: PlanState)
    requires Sized(g, s)
    ensures |s.useCount| == |s.buffer| == |g.values|
  {
  }

  lemma RootOfTaken(g: Graph, parallel: bool, pc: nat, j: nat)
    requires WellFormed(g) && AllKernels(g) && pc < |g.nodes| && j < |g.nodes[pc].outputs|
    requires Taken(g, parallel, pc, j).Some? && BeforeAt(g, parallel, pc, j)
    ensures var s, r := StateBefore(g, parallel, pc, j), Taken(g, parallel, pc, j).value;
            |s.buffer| == |g.values| && r < |s.buffer| && s.buffer[r] == r
  {
    hide WellFormed, AllKernels, StateBefore, DecisionAt, CountsExact, FreelistOk;
    TakenIs(g, parallel, pc, j);
  }

  /** The in-place pair, read with the buffers of the walk. */
  lemma InplacePosition(g: Graph, root: seq<nat>, b: seq<nat>, pc: nat, j: nat, k: nat, r: nat) returns (q: nat)
    requires WellFormed(g) && pc < |g.nodes| && j < |g.nodes[pc].outputs|
    requires Plannable(g, g.nodes[pc]) && Covers(g, root)
    requires g.nodes[pc].outputs[j].Some? && g.nodes[pc].outputs[j].value < |g.values| == |b| == |root|
    requires InplacePair(g, root, g.nodes[pc], k, j, g.nodes[pc].outputs[j].value)
    requires root[g.nodes[pc].outputs[j].value] == r
    requires forall v :: v in Defined(g, pc) && v < |g.values| ==> root[v] == b[v]
    ensures k < |g.nodes[pc].kernelDef.value.inplace| && g.nodes[pc].kernelDef.value.inplace[k] == (q, j)
    ensures q < |g.nodes[pc].inputs| && g.nodes[pc].inputs[q].Some? && g.nodes[pc].inputs[q].value < |b|
    ensures b[g.nodes[pc].inputs[q].value] == r && SoleReader(b, g.nodes[pc], q, r)
    ensures SameSize(g, g.nodes[pc].inputs[q].value, g.nodes[pc].outputs[j].value)
  {
    hide SameSize, Events;
    var node := g.nodes[pc];
    q := node.kernelDef.value.inplace[k].0;
    InputIsRead(g, pc, q);
    ReadsAreDefined(g, pc);
    hide WellFormed;
  }

  lemma ReadsAreDefined(g: Graph, pc: nat)
    requires WellFormed(g) && pc < |g.nodes|
    ensures forall p :: 0 <= p < |Reads(g.nodes[pc])| && Reads(g.nodes[pc])[p].Some? ==>
              Reads(g.nodes[pc])[p].value in Defined(g, pc)
  {
    assert NodeOk(g, pc);
    forall p | 0 <= p < |Reads(g.nodes[pc])| && Reads(g.nodes[pc])[p].Some?
      ensures Reads(g.nodes[pc])[p].value in Defined(g, pc)
    {
      assert Reads(g.nodes[pc])[p] in Reads(g.nodes[pc]);
    }
  }

  lemma AllDie(g: Graph, root: seq<nat>, b: seq<nat>, pc: nat, r: nat)
    requires pc < |g.nodes| && Covers(g, root) && |root| == |b| == |g.values| && SharersDead(g, root, pc, r, pc + 1)
    requires OnlyOld(g, b, pc, r) && forall v :: v in Defined(g, pc) && v < |g.values| ==> root[v] == b[v]
    ensures forall w: nat :: w < |b| && b[w] == r ==> Dead(g, w, pc + 1)
  {
    hide Dead, Defined;
  }

  lemma NamesInplace(g: Graph, s: PlanState, node: Node, k: nat, j: nat, r: nat)
    requires Plannable(g, node) && k < |node.kernelDef.value.inplace| && node.kernelDef.value.inplace[k].1 == j
    requires j < |node.outputs| && node.outputs[j].Some? && node.outputs[j].value < |g.values|
    requires var q := node.kernelDef.value.inplace[k].0;
             && 0 <= q < |node.inputs| && node.inputs[q].Some? && node.inputs[q].value < |s.buffer| == |g.values|
             && s.buffer[node.inputs[q].value] == r && r < |s.useCount| && s.useCount[r] == 1
             && SameSize(g, node.inputs[q].value, node.outputs[j].value)
    ensures InplaceOffered(g, s, node, j, r)
  {
    hide SameSize;
    assert InplaceNames(g, s, node, k, j, r);
  }

  /** Unless an earlier output of the step took the buffer too, only older values live in it. */
  lemma OldUnlessShared(g: Graph, parallel: bool, pc: nat, j: nat)
    requires WellFormed(g) && AllKernels(g) && pc < |g.nodes| && j < |g.nodes[pc].outputs|
    requires Taken(g, parallel, pc, j).Some?
    requires forall i: nat :: i < j && g.nodes[pc].outputs[i].Some? && g.nodes[pc].outputs[i].value < |g.values|
                              && |StateBefore(g, parallel, pc, j).buffer| == |g.values| ==>
               StateBefore(g, parallel, pc, j).buffer[g.nodes[pc].outputs[i].value] != Taken(g, parallel, pc, j).value
    ensures OnlyOld(g, StateBefore(g, parallel, pc, j).buffer, pc, Taken(g, parallel, pc, j).value)
  {
    hide WellFormed, AllKernels, StateBefore, Taken, DecisionAt, Defined, Prior, Before;
    var s, r := StateBefore(g, parallel, pc, j), Taken(g, parallel, pc, j).value;
    TakenIs(g, parallel, pc, j);
    DecidedInput(g, parallel, pc, j);
    var x := DecisionAt(g, parallel, pc, j).input;
    AlwaysBefore(g, parallel, pc, j);
    PriorCovers(g, pc, j);
    forall v: nat | v < |s.buffer| && s.buffer[v] == r
      ensures v in Defined(g, pc)
    {
      if v !in Prior(g, pc, j) {
        BeforeBuffer(g, s.useCount, s.buffer, s.freelist, pc, j, x, v);
        assert false;
      }
      if v !in Defined(g, pc) {
        var i := PriorOutput(g, pc, j, v);
        assert false;
      }
    }
  }

  lemma PriorOutput(g: Graph, pc: nat, j: nat, v: nat) returns (i: nat)
    requires pc < |g.nodes| && j <= |g.nodes[pc].outputs| && v in Prior(g, pc, j) && v !in Defined(g, pc)
    ensures i < j && g.nodes[pc].outputs[i] == Some(v)
  {
    var front := g.nodes[pc].outputs[..j];
    assert Some(v) in front;
    i :| 0 <= i < |front| && front[i] == Some(v);
  }

  /** An output that takes a buffer none of its own pairs offers is not placed safely. */
  lemma MisdirectedIsUnsafe(g: Graph, parallel: bool, pc: nat, j: nat)
    requires WellFormed(g) && AllKernels(g) && pc < |g.nodes| && j < |g.nodes[pc].outputs|
    requires Misdirected(g, parallel, pc, j) && Covers(g, StateAt(g, parallel, |g.nodes|).buffer)
    ensures !StepSafe(g, StateAt(g, parallel, |g.nodes|).buffer, pc, |g.nodes[pc].outputs|)
  {
    hide WellFormed, AllKernels, StateBefore, StateAt, DecisionAt, Aliased, InplacePair, AliasOffered, InplaceOffered,
      Taken, StepSafe, Recycled, Fresh, SharersDead, OnlyOld, Plannable;
    var root, o := StateAt(g, parallel, |g.nodes|).buffer, g.nodes[pc].outputs[j];
    TakenIs(g, parallel, pc, j);
    TakenIsFinal(g, parallel, pc, j);
    PlacedNext(g, parallel, pc, j);
    if StepSafe(g, root, pc, |g.nodes[pc].outputs|) {
      SafeOutput(g, root, pc, j);
      NotFresh(g, parallel, pc, j);
      if Aliased(g, root, pc, j, o.value) {
        AliasedWasOffered(g, parallel, pc, j);
      } else {
        var k: nat :| InplacePair(g, root, g.nodes[pc], k, j, o.value);
        NotShared(g, parallel, pc, j);
        OldUnlessShared(g, parallel, pc, j);
        InplaceWasOffered(g, parallel, pc, j, k);
      }
      assert false;
    }
  }

  /** A buffer taken from an input that the step reads is neither new nor recycled. */
  lemma NotFresh(g: Graph, parallel: bool, pc: nat, j: nat)
    requires WellFormed(g) && AllKernels(g) && pc < |g.nodes| && j < |g.nodes[pc].outputs|
    requires Taken(g, parallel, pc, j).Some? && Covers(g, StateAt(g, parallel, |g.nodes|).buffer)
    ensures var root, o := StateAt(g, parallel, |g.nodes|).buffer, g.nodes[pc].outputs[j];
            && o.Some? && o.value < |g.values|
            && !Fresh(g, root, pc, o.value) && !Recycled(g, root, pc, o.value)
  {
    hide WellFormed, AllKernels, StateBefore, StateAt, DecisionAt, Defined, Events, SameSize;
    TakenIs(g, parallel, pc, j);
    TakenIsFinal(g, parallel, pc, j);
    DecidedInput(g, parallel, pc, j);
  }

  /** In a safe step an output that is declared no alias shares its buffer with no earlier one. */
  lemma NotShared(g: Graph, parallel: bool, pc: nat, j: nat)
    requires WellFormed(g) && AllKernels(g) && pc < |g.nodes| && j < |g.nodes[pc].outputs|
    requires Taken(g, parallel, pc, j).Some? && Covers(g, StateAt(g, parallel, |g.nodes|).buffer)
    requires StepSafe(g, StateAt(g, parallel, |g.nodes|).buffer, pc, |g.nodes[pc].outputs|)
    requires g.nodes[pc].outputs[j].Some? && g.nodes[pc].outputs[j].value < |g.values|
    requires !Aliased(g, StateAt(g, parallel, |g.nodes|).buffer, pc, j, g.nodes[pc].outputs[j].value)
    ensures |StateBefore(g, parallel, pc, j).buffer| == |g.values|
    ensures forall i: nat :: i < j && g.nodes[pc].outputs[i].Some? && g.nodes[pc].outputs[i].value < |g.values| ==>
              StateBefore(g, parallel, pc, j).buffer[g.nodes[pc].outputs[i].value] != Taken(g, parallel, pc, j).value
  {
    hide WellFormed, AllKernels, StateBefore, StateAt, DecisionAt, Aliased, Taken, StepSafe, Prior;
    var root, outs := StateAt(g, parallel, |g.nodes|).buffer, g.nodes[pc].outputs;
    TakenIs(g, parallel, pc, j);
    TakenIsFinal(g, parallel, pc, j);
    forall i: nat | i < j && outs[i].Some? && outs[i].value < |g.values|
      ensures StateBefore(g, parallel, pc, j).buffer[outs[i].value] != Taken(g, parallel, pc, j).value
    {
      EarlierOutputPrior(g, pc, i, j);
      BufferFinal(g, parallel, pc, j, outs[i].value);
      SafeOutputs(g, root, pc, i, j);
    }
  }

  lemma AllocOf(g: Graph, parallel: bool)
    requires WellFormed(g) && AllKernels(g)
    ensures var s := StateAt(g, parallel, |g.nodes|);
            && |s.alloc| == |s.buffer| == |g.values| && Covers(g, s.buffer)
            && (forall v :: 0 <= v < |s.alloc| ==> Root(s.alloc, v) == s.buffer[v])
            && (forall v :: 0 <= v < |s.alloc| && s.alloc[v].kind.Reuse? ==> g.values[v].isTensor)
  {
    hide WellFormed, AllKernels, StateAt, Invariant, StepsSafe;
    AlwaysReady(false, g, parallel, |g.nodes|);
  }

  lemma NonTensorIsUnsafe(g: Graph, parallel: bool, pc: nat, j: nat)
    requires WellFormed(g) && AllKernels(g) && pc < |g.nodes| && j < |g.nodes[pc].outputs|
    requires AliasesNonTensor(g, parallel, pc, j)
    ensures var s := StateAt(g, parallel, |g.nodes|);
            exists v :: 0 <= v < |s.alloc| && s.alloc[v].kind.Reuse? && v < |s.buffer|
                        && s.buffer[v] < |g.values| && !g.values[s.buffer[v]].isTensor
  {
    hide WellFormed, AllKernels, StateBefore, StateAt, DecisionAt, Defined;
    var s := StateAt(g, parallel, |g.nodes|);
    TakenIsFinal(g, parallel, pc, j);
    AllocOf(g, parallel);
    var x, o := DecisionAt(g, parallel, pc, j).input, g.nodes[pc].outputs[j].value;
    assert Root(s.alloc, x) == x;
    assert Root(s.alloc, o) == x && o != x;
  }

  // ----- when missing outputs trail

  lemma RightlyNumbered(g: Graph, parallel: bool, pc: nat, j: nat)
    requires WellFormed(g) && AllKernels(g) && pc < |g.nodes| && j < |g.nodes[pc].outputs|
    requires MissingOutputsTrail(g.nodes[pc]) && Taken(g, parallel, pc, j).Some?
    ensures var d, s := DecisionAt(g, parallel, pc, j), StateBefore(g, parallel, pc, j);
            var r := Taken(g, parallel, pc, j).value;
            && g.nodes[pc].kernelDef.Some?
            && (d.TakeAlias? <==> AliasOffered(g.nodes[pc], s.buffer, j, r))
            && (d.TakeInplace? ==> InplaceOffered(g, s, g.nodes[pc], j, r))
  {
    hide WellFormed, AllKernels, StateBefore, Decide, MissingOutputsTrail, SameSize, NodeInRange;
    var node, s, d := g.nodes[pc], StateBefore(g, parallel, pc, j), DecisionAt(g, parallel, pc, j);
    var r := Taken(g, parallel, pc, j).value;
    TakenIs(g, parallel, pc, j);
    PlacedNext(g, parallel, pc, j);
    DecideFacts(g, parallel, s, node, j);
    ArgNumberIsPosition(node);
    if d.TakeAlias? {
      var k :| FirstAlias(node, j, k, d.input);
      assert AliasNames(node, s.buffer, k, j, r);
    } else {
      var k :| FirstInplace(g, s.useCount, s.buffer, node, j, k, d.input);
      assert InplaceNames(g, s, node, k, j, r);
    }
  }

  /** Output i overwrites the buffer of an input that the later output j is declared to alias. */
  ghost predicate Overwrites(g: Graph, parallel: bool, pc: nat, i: nat, j: nat)
    requires WellFormed(g) && AllKernels(g) && pc < |g.nodes| && i < j < |g.nodes[pc].outputs|
  {
    && DecisionAt(g, parallel, pc, i).TakeInplace? && DecisionAt(g, parallel, pc, j).TakeAlias?
    && Taken(g, parallel, pc, i) == Taken(g, parallel, pc, j)
  }

  /** A buffer that an earlier output of the step has joined is not at its last use any more. */
  lemma InplaceIsAlone(g: Graph, parallel: bool, pc: nat, i: nat, j: nat)
    requires WellFormed(g) && AllKernels(g) && pc < |g.nodes| && i < j < |g.nodes[pc].outputs|
    requires Taken(g, parallel, pc, i).Some? && Taken(g, parallel, pc, i) == Taken(g, parallel, pc, j)
    ensures !DecisionAt(g, parallel, pc, j).TakeInplace?
  {
    hide WellFormed, AllKernels, StateBefore, Decide, PlaceOne, Defined, Prior, SameSize, NodeInRange;
    var node, s, o := g.nodes[pc], StateBefore(g, parallel, pc, j), g.nodes[pc].outputs[i];
    TakenIs(g, parallel, pc, i);
    TakenIs(g, parallel, pc, j);
    PlacedNext(g, parallel, pc, i);
    PlaceOneBuffer(g, parallel, StateBefore(g, parallel, pc, i), node, i);
    DecideFacts(g, parallel, StateBefore(g, parallel, pc, i), node, i);
    PriorStep(g, pc, i);
    BufferKept(g, parallel, pc, i + 1, j, o.value);
    PlacedNext(g, parallel, pc, j);
    DecideFacts(g, parallel, s, node, j);
    var d := DecisionAt(g, parallel, pc, j);
    if d.TakeInplace? {
      var k :| FirstInplace(g, s.useCount, s.buffer, node, ArgNumber(node, j), k, d.input);
      InplaceParts(g, s.useCount, s.buffer, node, ArgNumber(node, j), k, d.input);
      AlwaysBefore(g, parallel, pc, j);
      EarlierOutputPrior(g, pc, i, j);
      LastUseIsAlone(g, s, pc, j, node.kernelDef.value.inplace[k].0, o.value);
      assert false;
    }
  }

  lemma LastUseIsAlone(g: Graph, s: PlanState, pc: nat, j: nat, p: int, o: nat)
    requires Before(g, s.useCount, s.buffer, s.freelist, pc, j) && o < |s.buffer| && o in Existing(g.nodes[pc].outputs)
    requires InputAt(g.nodes[pc], p).Some? && InputAt(g.nodes[pc], p).value < |s.buffer|
    requires s.buffer[InputAt(g.nodes[pc], p).value] < |s.useCount|
    requires s.useCount[s.buffer[InputAt(g.nodes[pc], p).value]] == 1
    ensures s.buffer[o] != s.buffer[InputAt(g.nodes[pc], p).value]
  {
    var r := s.buffer[InputAt(g.nodes[pc], p).value];
    assert Count(Events(g, pc), s.buffer, r) == 1;
    hide WellFormed, Events, Invariant;
    OnlyUse(g, s.buffer, pc, p, r);
  }

  lemma ClashExactlyIfOverwrites(g: Graph, parallel: bool, pc: nat, i: nat, j: nat)
    requires WellFormed(g) && AllKernels(g) && pc < |g.nodes| && i < j < |g.nodes[pc].outputs|
    requires MissingOutputsTrail(g.nodes[pc])
    ensures Clash(g, parallel, pc, i, j) <==> Overwrites(g, parallel, pc, i, j)
  {
    hide WellFormed, AllKernels, StateBefore, DecisionAt, AliasOffered, InplaceOffered, MissingOutputsTrail, Taken;
    TakenIs(g, parallel, pc, i);
    TakenIs(g, parallel, pc, j);
    if Taken(g, parallel, pc, i).Some? && Taken(g, parallel, pc, i) == Taken(g, parallel, pc, j) {
      RightlyNumbered(g, parallel, pc, i);
      RightlyNumbered(g, parallel, pc, j);
      InplaceIsAlone(g, parallel, pc, i, j);
    }
  }

  lemma NotMisdirected(g: Graph, parallel: bool, pc: nat, j: nat)
    requires WellFormed(g) && AllKernels(g) && pc < |g.nodes| && j < |g.nodes[pc].outputs|
    requires MissingOutputsTrail(g.nodes[pc])
    ensures !Misdirected(g, parallel, pc, j)
  {
    hide WellFormed, AllKernels, StateBefore, DecisionAt, AliasOffered, InplaceOffered, MissingOutputsTrail, Taken;
    TakenIs(g, parallel, pc, j);
    if Taken(g, parallel, pc, j).Some? { RightlyNumbered(g, parallel, pc, j); }
  }

  /**
   Where missing outputs trail, a step goes wrong exactly if an output overwrites in place a buffer that a later output
   takes by alias, or one aliases something that is no tensor.
   */
  lemma CleanStepExactlyIf(g: Graph, parallel: bool, pc: nat)
    requires WellFormed(g) && AllKernels(g) && pc < |g.nodes| && MissingOutputsTrail(g.nodes[pc])
    ensures CleanStep(g, parallel, pc) <==>
            && (forall i: nat, j: nat :: i < j < |g.nodes[pc].outputs| ==> !Overwrites(g, parallel, pc, i, j))
            && (forall j: nat :: j < |g.nodes[pc].outputs| ==> !AliasesNonTensor(g, parallel, pc, j))
  {
    hide WellFormed, AllKernels, Clash, Overwrites, Misdirected, AliasesNonTensor, MissingOutputsTrail;
    forall i: nat, j: nat | i < j < |g.nodes[pc].outputs|
      ensures Clash(g, parallel, pc, i, j) <==> Overwrites(g, parallel, pc, i, j)
    {
      ClashExactlyIfOverwrites(g, parallel, pc, i, j);
    }
    forall j: nat | j < |g.nodes[pc].outputs|
      ensures !Misdirected(g, parallel, pc, j)
    {
      NotMisdirected(g, parallel, pc, j);
    }
  }

  // ----- a condition on the kernel declarations alone

  lemma SharableParts(g: Graph, pc: nat)
    requires SharableGraph(g) && pc < |g.nodes|
    ensures SharingOk(g, g.nodes[pc]) && MissingOutputsTrail(g.nodes[pc]) && g.nodes[pc].kernelDef.Some?
  {
    hide MissingOutputsTrail;
    assert SharingOk(g, g.nodes[pc]);
  }

  lemma SharableKernels(g: Graph)
    requires SharableGraph(g)
    ensures AllKernels(g) && GapsTrail(g)
  {
    hide SharableGraph, MissingOutputsTrail;
    forall pc | 0 <= pc < |g.nodes|
      ensures g.nodes[pc].kernelDef.Some? && MissingOutputsTrail(g.nodes[pc])
    {
      SharableParts(g, pc);
    }
  }

  /** A use count of one means that only one position reads the buffer. */
  lemma SamePosition(g: Graph, useCount: seq<int>, buffer: seq<nat>, freelist: seq<FreeBufferInfo>, pc: nat, i: nat,
                     p: int, q: int)
    requires Before(g, useCount, buffer, freelist, pc, i)
    requires InputAt(g.nodes[pc], p).Some? && InputAt(g.nodes[pc], q).Some?
    requires InputAt(g.nodes[pc], p).value < |g.values| == |buffer| == |useCount|
             && InputAt(g.nodes[pc], q).value < |g.values|
    requires buffer[InputAt(g.nodes[pc], p).value] == buffer[InputAt(g.nodes[pc], q).value]
    requires buffer[InputAt(g.nodes[pc], p).value] < |useCount| && useCount[buffer[InputAt(g.nodes[pc], p).value]] == 1
    ensures p == q
  {
    var node, r := g.nodes[pc], buffer[InputAt(g.nodes[pc], p).value];
    assert Count(Events(g, pc), buffer, r) == 1;
    hide WellFormed, Events, Invariant;
    OnlyUse(g, buffer, pc, p, r);
    assert Reads(node)[q] == node.inputs[q];
  }

  lemma SharableNoOverwrite(g: Graph, parallel: bool, pc: nat, i: nat, j: nat)
    requires WellFormed(g) && AllKernels(g) && SharableGraph(g) && pc < |g.nodes| && i < j < |g.nodes[pc].outputs|
    ensures !Overwrites(g, parallel, pc, i, j)
  {
    hide WellFormed, AllKernels, SharableGraph, StateBefore, Decide, MissingOutputsTrail, Before, Prior, SameSize,
      Sized;
    if Overwrites(g, parallel, pc, i, j) {
      var node, s, t := g.nodes[pc], StateBefore(g, parallel, pc, i), StateBefore(g, parallel, pc, j);
      var d, e := DecisionAt(g, parallel, pc, i), DecisionAt(g, parallel, pc, j);
      SharableParts(g, pc);
      ArgNumberIsPosition(node);
      PlacedNext(g, parallel, pc, i);
      PlacedNext(g, parallel, pc, j);
      DecideFacts(g, parallel, s, node, i);
      DecideFacts(g, parallel, t, node, j);
      DecidedInput(g, parallel, pc, j);
      PriorCovers(g, pc, i);
      BufferKept(g, parallel, pc, i, j, e.input);
      var m :| FirstInplace(g, s.useCount, s.buffer, node, i, m, d.input);
      var k :| FirstAlias(node, j, k, e.input);
      InplaceParts(g, s.useCount, s.buffer, node, i, m, d.input);
      AlwaysBefore(g, parallel, pc, i);
      SizedCounts(g, s);
      SamePosition(g, s.useCount, s.buffer, s.freelist, pc, i, node.kernelDef.value.inplace[m].0,
                   node.kernelDef.value.alias[k].0);
      assert false;
    }
  }

  lemma SizedCounts(g: Graph, s: PlanState)
    requires Sized(g, s)
    ensures |s.useCount| == |s.buffer| == |g.values|
  {
  }

  lemma SharableAliasesTensor(g: Graph, parallel: bool, pc: nat, j: nat)
    requires WellFormed(g) && AllKernels(g) && SharableGraph(g) && pc < |g.nodes| && j < |g.nodes[pc].outputs|
    ensures !AliasesNonTensor(g, parallel, pc, j)
  {
    hide WellFormed, AllKernels, SharableGraph, StateBefore, Decide, MissingOutputsTrail;
    SharableParts(g, pc);
    PlacedNext(g, parallel, pc, j);
    DecideFacts(g, parallel, StateBefore(g, parallel, pc, j), g.nodes[pc], j);
  }

  /** Kernels that declare nothing contradictory make every walk clean. */
  lemma SharableIsClean(g: Graph, parallel: bool)
    requires WellFormed(g) && SharableGraph(g)
    ensures AllKernels(g) && Clean(g, parallel)
  {
    hide WellFormed, SharableGraph, AllKernels, GapsTrail, Overwrites, AliasesNonTensor, CleanStep, MissingOutputsTrail;
    SharableKernels(g);
    forall pc: nat | pc < |g.nodes|
      ensures CleanStep(g, parallel, pc)
    {
      SharableParts(g, pc);
      forall i: nat, j: nat | i < j < |g.nodes[pc].outputs|
        ensures !Overwrites(g, parallel, pc, i, j)
      {
        SharableNoOverwrite(g, parallel, pc, i, j);
      }
      forall j: nat | j < |g.nodes[pc].outputs|
        ensures !AliasesNonTensor(g, parallel, pc, j)
      {
        SharableAliasesTensor(g, parallel, pc, j);
      }
      CleanStepExactlyIf(g, parallel, pc);
    }
  }
}
