/** Every way the planner has of giving an output a buffer keeps the step safe. */
module Placement {
  import opened Wrappers
  import opened GraphModel
  import opened PlanSafety
  import opened PlannerInvariant

  /** The values produced before the output at position j of step pc. */
  ghost function Prior(g: Graph, pc: nat, j: nat): set<nat>
    requires pc < |g.nodes| && j <= |g.nodes[pc].outputs|
  {
    Defined(g, pc) + Elements(Existing(g.nodes[pc].outputs[..j]))
  }

  lemma OutputIsNew(g: Graph, pc: nat, j: nat)
    requires WellFormed(g) && pc < |g.nodes| && j < |g.nodes[pc].outputs| && g.nodes[pc].outputs[j].Some?
    ensures g.nodes[pc].outputs[j].value !in Existing(g.nodes[pc].outputs[..j])
    ensures g.nodes[pc].outputs[j].value in Existing(g.nodes[pc].outputs)
  {
    assert NodeOk(g, pc);
    var outs := g.nodes[pc].outputs;
    var front := Existing(outs[..j]);
    assert outs == outs[..j] + outs[j..];
    ExistingConcat(outs[..j], outs[j..]);
    assert outs[j] in outs;
    assert Existing(outs)[|front|] == outs[j].value;
    assert forall i :: 0 <= i < |front| ==> front[i] == Existing(outs)[i];
  }

  lemma PriorStep(g: Graph, pc: nat, j: nat)
    requires WellFormed(g) && pc < |g.nodes| && j < |g.nodes[pc].outputs|
    ensures var out := g.nodes[pc].outputs[j];
            && Prior(g, pc, j + 1) == (if out.Some? then Prior(g, pc, j) + {out.value} else Prior(g, pc, j))
            && (out.Some? ==>
                  && out.value < |g.values| && out.value !in Prior(g, pc, j) && !IsSource(g, out.value)
                  && out.value in Events(g, pc))
  {
    assert NodeOk(g, pc);
    var outs := g.nodes[pc].outputs;
    assert outs[..j + 1] == outs[..j] + [outs[j]];
    ExistingConcat(outs[..j], [outs[j]]);
    if outs[j].Some? {
      OutputIsNew(g, pc, j);
      DefinedGrows(g, 0, pc);
    }
  }

  lemma PriorAll(g: Graph, pc: nat)
    requires pc < |g.nodes|
    ensures Prior(g, pc, 0) == Defined(g, pc)
    ensures Prior(g, pc, |g.nodes[pc].outputs|) == Defined(g, pc + 1)
  {
    assert g.nodes[pc].outputs[..|g.nodes[pc].outputs|] == g.nodes[pc].outputs;
  }

  /** The planner stands before the output at position j of step pc. */
  ghost predicate Before(g: Graph, useCount: seq<int>, buffer: seq<nat>, freelist: seq<FreeBufferInfo>, pc: nat,
                         j: nat) {
    && WellFormed(g) && pc < |g.nodes| && j <= |g.nodes[pc].outputs|
    && Invariant(g, useCount, buffer, freelist, Prior(g, pc, j), Events(g, pc), pc - 1)
  }

  /** Earlier outputs of the step keep their placement when output j moves into buffer r. */
  lemma EarlierOutputsStay(g: Graph, useCount: seq<int>, buffer: seq<nat>, freelist: seq<FreeBufferInfo>, pc: nat,
                           j: nat, r: nat)
    requires Before(g, useCount, buffer, freelist, pc, j)
    requires j < |g.nodes[pc].outputs| && g.nodes[pc].outputs[j].Some?
    requires g.nodes[pc].outputs[j].value < |buffer| && StepSafe(g, buffer, pc, j)
    ensures StepSafe(g, buffer[g.nodes[pc].outputs[j].value := r], pc, j)
  {
    var outs := g.nodes[pc].outputs;
    var o := outs[j].value;
    PriorStep(g, pc, j);
    forall i | 0 <= i < j && outs[i].Some?
      ensures outs[i].value != o
    {
      assert outs[..j][i] == outs[i];
      assert outs[i].value in Existing(outs[..j]);
    }
    StepSafeFrame(g, buffer, buffer[o := r], pc, j);
  }

  lemma ExtendStep(g: Graph, root: seq<nat>, pc: nat, j: nat)
    requires Covers(g, root) && pc < |g.nodes| && j < |g.nodes[pc].outputs|
    requires StepSafe(g, root, pc, j) && OutputSafe(g, root, pc, j)
    requires forall i :: 0 <= i < j ==> OutputsApart(g, root, pc, i, j)
    ensures StepSafe(g, root, pc, j + 1)
  {
  }

  lemma EarlierOutputPrior(g: Graph, pc: nat, i: nat, j: nat)
    requires pc < |g.nodes| && i < j <= |g.nodes[pc].outputs| && g.nodes[pc].outputs[i].Some?
    ensures g.nodes[pc].outputs[i].value in Prior(g, pc, j)
    ensures g.nodes[pc].outputs[i].value in Existing(g.nodes[pc].outputs)
  {
    var outs := g.nodes[pc].outputs;
    assert outs[..j][i] == outs[i];
    assert outs[i].value in Existing(outs[..j]);
    assert outs[i] in outs;
  }

  lemma PlaceFresh(g: Graph, useCount: seq<int>, buffer: seq<nat>, freelist: seq<FreeBufferInfo>, pc: nat, j: nat)
    requires Before(g, useCount, buffer, freelist, pc, j)
    requires j < |g.nodes[pc].outputs| && g.nodes[pc].outputs[j].Some?
    requires StepSafe(g, buffer, pc, j)
    ensures StepSafe(g, buffer, pc, j + 1)
  {
    var o := g.nodes[pc].outputs[j].value;
    PriorStep(g, pc, j);
    assert Fresh(g, buffer, pc, o);
    forall i | 0 <= i < j
      ensures OutputsApart(g, buffer, pc, i, j)
    {
      if g.nodes[pc].outputs[i].Some? { EarlierOutputPrior(g, pc, i, j); }
    }
    ExtendStep(g, buffer, pc, j);
  }

  /** Every earlier output in buffer r aliases what is in it. */
  ghost predicate OnlyAliases(g: Graph, buffer: seq<nat>, pc: nat, j: nat, r: nat)
    requires Covers(g, buffer) && pc < |g.nodes| && j <= |g.nodes[pc].outputs|
  {
    forall i :: 0 <= i < j && g.nodes[pc].outputs[i].Some? && g.nodes[pc].outputs[i].value < |buffer|
                && buffer[g.nodes[pc].outputs[i].value] == r ==>
      Aliased(g, buffer, pc, i, g.nodes[pc].outputs[i].value)
  }

  lemma PlaceAlias(g: Graph, useCount: seq<int>, buffer: seq<nat>, freelist: seq<FreeBufferInfo>, pc: nat, j: nat,
                   k: nat, r: nat)
    requires Before(g, useCount, buffer, freelist, pc, j) && g.nodes[pc].kernelDef.Some?
    requires j < |g.nodes[pc].outputs| && g.nodes[pc].outputs[j].Some?
    requires NodeInRange(g, g.nodes[pc]) && AliasPair(g, buffer, g.nodes[pc], k, j, r)
    requires StepSafe(g, buffer, pc, j) && OnlyAliases(g, buffer, pc, j, r)
    ensures StepSafe(g, buffer[g.nodes[pc].outputs[j].value := r], pc, j + 1)
  {
    hide *;
    BeforeFacts(g, useCount, buffer, freelist, pc, j);
    PriorStep(g, pc, j);
    PriorCovers(g, pc, j);
    EarlierOutputsStay(g, useCount, buffer, freelist, pc, j, r);
    AliasedHere(g, buffer, pc, j, k, r);
    var root := buffer[g.nodes[pc].outputs[j].value := r];
    CoversAny(g, buffer, g.nodes[pc].outputs[j].value, r);
    AliasedIsSafe(g, root, pc, j);
    forall i | 0 <= i < j
      ensures OutputsApart(g, root, pc, i, j)
    {
      BothAlias(g, buffer, pc, i, j, r);
    }
    ExtendStep(g, root, pc, j);
  }

  lemma BeforeFacts(g: Graph, useCount: seq<int>, buffer: seq<nat>, freelist: seq<FreeBufferInfo>, pc: nat, j: nat)
    requires Before(g, useCount, buffer, freelist, pc, j)
    ensures WellFormed(g) && pc < |g.nodes| && j <= |g.nodes[pc].outputs| && Covers(g, buffer) && |buffer| == |g.values|
  {
    hide WellFormed, CountsExact, FreelistOk;
  }

  lemma CoversAny(g: Graph, buffer: seq<nat>, o: nat, r: nat)
    requires Covers(g, buffer) && o < |buffer|
    ensures Covers(g, buffer[o := r])
  {
  }

  lemma AliasedIsSafe(g: Graph, root: seq<nat>, pc: nat, j: nat)
    requires Covers(g, root) && pc < |g.nodes| && j < |g.nodes[pc].outputs| && g.nodes[pc].outputs[j].Some?
    requires g.nodes[pc].outputs[j].value < |g.values| && Aliased(g, root, pc, j, g.nodes[pc].outputs[j].value)
    ensures OutputSafe(g, root, pc, j)
  {
    hide Aliased, Fresh, Inplace, Recycled;
  }

  lemma PriorCovers(g: Graph, pc: nat, j: nat)
    requires pc < |g.nodes| && j <= |g.nodes[pc].outputs|
    ensures Defined(g, pc) <= Prior(g, pc, j)
  {
  }

  lemma BothAlias(g: Graph, buffer: seq<nat>, pc: nat, i: nat, j: nat, r: nat)
    requires WellFormed(g) && Covers(g, buffer) && pc < |g.nodes| && i < j < |g.nodes[pc].outputs|
    requires g.nodes[pc].outputs[j].Some? && g.nodes[pc].outputs[j].value < |buffer|
    requires g.nodes[pc].outputs[j].value !in Prior(g, pc, j) && OnlyAliases(g, buffer, pc, j, r)
    requires Aliased(g, buffer[g.nodes[pc].outputs[j].value := r], pc, j, g.nodes[pc].outputs[j].value)
    ensures OutputsApart(g, buffer[g.nodes[pc].outputs[j].value := r], pc, i, j)
  {
    hide WellFormed, Aliased, Defined;
    var outs := g.nodes[pc].outputs;
    var root := buffer[outs[j].value := r];
    if outs[i].Some? && outs[i].value < |root| && root[outs[i].value] == r {
      EarlierOutputPrior(g, pc, i, j);
      PriorCovers(g, pc, j);
      AliasedFrame(g, buffer, root, pc, i, outs[i].value);
    }
  }

  lemma AliasedHere(g: Graph, buffer: seq<nat>, pc: nat, j: nat, k: nat, r: nat)
    requires WellFormed(g) && Covers(g, buffer) && pc < |g.nodes| && g.nodes[pc].kernelDef.Some?
    requires j < |g.nodes[pc].outputs| && g.nodes[pc].outputs[j].Some? && g.nodes[pc].outputs[j].value < |buffer|
    requires NodeInRange(g, g.nodes[pc]) && AliasPair(g, buffer, g.nodes[pc], k, j, r)
    requires g.nodes[pc].outputs[j].value !in Defined(g, pc)
    ensures Aliased(g, buffer[g.nodes[pc].outputs[j].value := r], pc, j, g.nodes[pc].outputs[j].value)
  {
    var node := g.nodes[pc];
    assert NodeOk(g, pc);
    var x := InputAt(node, node.kernelDef.value.alias[k].0);
    assert Some(x.value) in node.inputs;
    var root := buffer[node.outputs[j].value := r];
    assert AliasPair(g, root, node, k, j, root[node.outputs[j].value]);
  }

  /** A use count of one leaves room for no other sharer that is still needed. */
  lemma OnlyUse(g: Graph, buffer: seq<nat>, pc: nat, i: nat, r: nat)
    requires WellFormed(g) && pc < |g.nodes| && Covers(g, buffer)
    requires i < |g.nodes[pc].inputs| && g.nodes[pc].inputs[i].Some? && g.nodes[pc].inputs[i].value < |buffer|
    requires buffer[g.nodes[pc].inputs[i].value] == r && Count(Events(g, pc), buffer, r) == 1
    ensures SoleReader(buffer, g.nodes[pc], i, r)
    ensures forall w: nat ::
              w < |buffer| && buffer[w] == r ==> w !in Existing(g.nodes[pc].outputs) && Dead(g, w, pc + 1)
  {
    var node := g.nodes[pc];
    var args := Reads(node);
    ExistingConcat(node.inputs, node.implicits);
    CountConcat(Touched(node), Events(g, pc + 1), buffer, r);
    CountConcat(Existing(args), Existing(node.outputs), buffer, r);
    assert args[i] == node.inputs[i];
    CountPositive(Existing(args), buffer, args[i].value);
    CountZero(Events(g, pc + 1), buffer, r);
    CountZero(Existing(node.outputs), buffer, r);
    forall p | 0 <= p < |args| && p != i && args[p].Some? && args[p].value < |buffer|
      ensures buffer[args[p].value] != r
    {
      if buffer[args[p].value] == r {
        if p < i { TwoUses(args, p, i, buffer, r); } else { TwoUses(args, i, p, buffer, r); }
      }
    }
  }

  lemma PlaceInplace(g: Graph, useCount: seq<int>, buffer: seq<nat>, freelist: seq<FreeBufferInfo>, pc: nat, j: nat,
                     k: nat, r: nat)
    requires Before(g, useCount, buffer, freelist, pc, j) && g.nodes[pc].kernelDef.Some?
    requires j < |g.nodes[pc].outputs| && g.nodes[pc].outputs[j].Some?
    requires NodeInRange(g, g.nodes[pc]) && k < |g.nodes[pc].kernelDef.value.inplace|
    requires g.nodes[pc].kernelDef.value.inplace[k].1 == j
    requires var x := InputAt(g.nodes[pc], g.nodes[pc].kernelDef.value.inplace[k].0);
             x.Some? && SameSize(g, x.value, g.nodes[pc].outputs[j].value) && buffer[x.value] == r && useCount[r] == 1
    requires StepSafe(g, buffer, pc, j)
    ensures StepSafe(g, buffer[g.nodes[pc].outputs[j].value := r], pc, j + 1)
  {
    var node := g.nodes[pc];
    var o := node.outputs[j].value;
    var root := buffer[o := r];
    var at := node.kernelDef.value.inplace[k].0;
    PriorStep(g, pc, j);
    EarlierOutputsStay(g, useCount, buffer, freelist, pc, j, r);
    OnlyUse(g, buffer, pc, at, r);
    assert NodeOk(g, pc);
    assert Some(InputAt(node, at).value) in node.inputs;
    forall p | 0 <= p < |Reads(node)| && Reads(node)[p].Some?
      ensures Reads(node)[p].value != o
    {
      assert Reads(node)[p] in Reads(node);
    }
    assert InplacePair(g, root, node, k, j, o);
    assert SharersDead(g, root, pc, r, pc + 1);
    assert Inplace(g, root, pc, j, o);
    forall i | 0 <= i < j
      ensures OutputsApart(g, root, pc, i, j)
    {
      if node.outputs[i].Some? {
        EarlierOutputPrior(g, pc, i, j);
      }
    }
    ExtendStep(g, root, pc, j);
  }

  lemma ListedIsDead(g: Graph, useCount: seq<int>, buffer: seq<nat>, freelist: seq<FreeBufferInfo>, pc: nat, j: nat,
                     r: nat)
    requires Before(g, useCount, buffer, freelist, pc, j) && Listed(freelist, r)
    ensures r < |buffer| && buffer[r] == r && r in Defined(g, pc)
    ensures forall w: nat :: w < |buffer| && buffer[w] == r ==> Dead(g, w, pc)
  {
    var e :| e in freelist && e.mlValue == r;
    assert EntryOk(g, useCount, buffer, e);
    FreeExactlyWhenUnused(g, useCount, buffer, freelist, Prior(g, pc, j), Events(g, pc), pc - 1, r);
    DefinedGrows(g, e.deallocatePoint + 1, pc);
  }

  lemma PlaceRecycled(g: Graph, useCount: seq<int>, buffer: seq<nat>, freelist: seq<FreeBufferInfo>, pc: nat, j: nat,
                      r: nat)
    requires Before(g, useCount, buffer, freelist, pc, j)
    requires j < |g.nodes[pc].outputs| && g.nodes[pc].outputs[j].Some? && g.nodes[pc].outputs[j].value < |g.values|
    requires Listed(freelist, r) && r < |g.values| && SameSize(g, r, g.nodes[pc].outputs[j].value)
    requires StepSafe(g, buffer, pc, j)
    ensures StepSafe(g, buffer[g.nodes[pc].outputs[j].value := r], pc, j + 1)
  {
    hide *;
    BeforeFacts(g, useCount, buffer, freelist, pc, j);
    PriorStep(g, pc, j);
    PriorCovers(g, pc, j);
    var o := g.nodes[pc].outputs[j].value;
    var root := buffer[o := r];
    EarlierOutputsStay(g, useCount, buffer, freelist, pc, j, r);
    ListedIsDead(g, useCount, buffer, freelist, pc, j, r);
    CoversAny(g, buffer, o, r);
    RecycledHere(g, buffer, pc, j, r);
    forall i | 0 <= i < j
      ensures OutputsApart(g, root, pc, i, j)
    {
      RecycledApart(g, buffer, pc, i, j, r);
    }
    ExtendStep(g, root, pc, j);
  }

  lemma RecycledHere(g: Graph, buffer: seq<nat>, pc: nat, j: nat, r: nat)
    requires Covers(g, buffer) && pc < |g.nodes| && j < |g.nodes[pc].outputs| && g.nodes[pc].outputs[j].Some?
    requires g.nodes[pc].outputs[j].value < |buffer| && g.nodes[pc].outputs[j].value !in Defined(g, pc)
    requires r < |buffer| && buffer[r] == r && r in Defined(g, pc) && SameSize(g, r, g.nodes[pc].outputs[j].value)
    requires forall w: nat :: w < |buffer| && buffer[w] == r ==> Dead(g, w, pc)
    ensures OutputSafe(g, buffer[g.nodes[pc].outputs[j].value := r], pc, j)
  {
    hide SameSize, Dead, Defined;
    var o := g.nodes[pc].outputs[j].value;
    assert Recycled(g, buffer[o := r], pc, o);
  }

  lemma RecycledApart(g: Graph, buffer: seq<nat>, pc: nat, i: nat, j: nat, r: nat)
    requires WellFormed(g) && Covers(g, buffer) && pc < |g.nodes| && i < j < |g.nodes[pc].outputs|
    requires g.nodes[pc].outputs[j].Some? && g.nodes[pc].outputs[j].value < |buffer|
    requires g.nodes[pc].outputs[j].value !in Prior(g, pc, j)
    requires forall w: nat :: w < |buffer| && buffer[w] == r ==> Dead(g, w, pc)
    ensures OutputsApart(g, buffer[g.nodes[pc].outputs[j].value := r], pc, i, j)
  {
    hide WellFormed, Aliased, Defined;
    var outs := g.nodes[pc].outputs;
    if outs[i].Some? {
      EarlierOutputPrior(g, pc, i, j);
      assert outs[i].value in Events(g, pc);
    }
  }
}
