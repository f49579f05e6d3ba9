/**
 The execution plan and what makes it safe to trust blindly.  `root[v]` is the value
 whose buffer v lives in.  Nothing here mentions how a plan is computed.
 */
module PlanSafety {
  import opened Wrappers
  import opened GraphModel

  datatype AllocKind = Allocate | AllocateStatically | PreExisting | Reuse | AllocateOutput

  /** `reused` is meaningful only when the kind is Reuse. */
  datatype AllocPlan = AllocPlan(kind: AllocKind, reused: nat)

  /** Values toBeFreed[freeFrom..freeTo], both ends included, are released after the step. */
  datatype StepPlan = StepPlan(freeFrom: int, freeTo: int)

  datatype Plan = Plan(alloc: seq<AllocPlan>, steps: seq<StepPlan>, toBeFreed: seq<nat>)

  function Root(alloc: seq<AllocPlan>, v: nat): nat
    requires v < |alloc|
  {
    if alloc[v].kind.Reuse? then alloc[v].reused else v
  }

  ghost predicate Covers(g: Graph, root: seq<nat>) {
    |root| == |g.values|
  }

  ghost predicate NodeInRange(g: Graph, node: Node) {
    && ArgsInRange(g, node.inputs) && ArgsInRange(g, node.implicits) && ArgsInRange(g, node.outputs)
  }

  /** Every value produced so far that lives in buffer r is dead at step `at`. */
  ghost predicate SharersDead(g: Graph, root: seq<nat>, pc: nat, r: nat, at: nat)
    requires Covers(g, root) && pc <= |g.nodes| && at <= |g.nodes|
  {
    forall w :: w in Defined(g, pc) && w < |root| && root[w] == r ==> Dead(g, w, at)
  }

  /** The output has a buffer of its own that no earlier value lives in. */
  ghost predicate Fresh(g: Graph, root: seq<nat>, pc: nat, o: nat)
    requires Covers(g, root) && pc < |g.nodes| && o < |g.values|
  {
    root[o] == o && forall w :: w in Defined(g, pc) && w < |root| ==> root[w] != o
  }

  ghost predicate AliasPair(g: Graph, root: seq<nat>, node: Node, k: nat, j: nat, r: nat)
    requires Covers(g, root) && NodeInRange(g, node) && node.kernelDef.Some?
  {
    && k < |node.kernelDef.value.alias| && node.kernelDef.value.alias[k].1 == j
    && var x := InputAt(node, node.kernelDef.value.alias[k].0);
    && x.Some? && root[x.value] == r
  }

  /** The output shares the buffer of an input it is declared to alias. */
  ghost predicate Aliased(g: Graph, root: seq<nat>, pc: nat, j: nat, o: nat)
    requires Covers(g, root) && pc < |g.nodes| && o < |g.values|
  {
    var node := g.nodes[pc];
    && NodeInRange(g, node) && node.kernelDef.Some?
    && exists k: nat :: AliasPair(g, root, node, k, j, root[o])
  }

  /** Position i is the only argument of the node that lives in buffer r. */
  ghost predicate SoleReader(root: seq<nat>, node: Node, i: int, r: nat) {
    forall p :: 0 <= p < |Reads(node)| && p != i && Reads(node)[p].Some? && Reads(node)[p].value < |root|
                ==> root[Reads(node)[p].value] != r
  }

  ghost predicate InplacePair(g: Graph, root: seq<nat>, node: Node, k: nat, j: nat, o: nat)
    requires Covers(g, root) && NodeInRange(g, node) && node.kernelDef.Some? && o < |g.values|
  {
    && k < |node.kernelDef.value.inplace| && node.kernelDef.value.inplace[k].1 == j
    && var i := node.kernelDef.value.inplace[k].0;
    && InputAt(node, i).Some? && SameSize(g, InputAt(node, i).value, o)
    && root[InputAt(node, i).value] == root[o] && SoleReader(root, node, i, root[o])
  }

  /** The output overwrites an input it may replace, nobody else needing the old contents. */
  ghost predicate Inplace(g: Graph, root: seq<nat>, pc: nat, j: nat, o: nat)
    requires Covers(g, root) && pc < |g.nodes| && o < |g.values|
  {
    var node := g.nodes[pc];
    && NodeInRange(g, node) && node.kernelDef.Some?
    && (exists k: nat :: InplacePair(g, root, node, k, j, o))
    && SharersDead(g, root, pc, root[o], pc + 1)
  }

  /** The output takes over a buffer of the same size whose values are all dead already. */
  ghost predicate Recycled(g: Graph, root: seq<nat>, pc: nat, o: nat)
    requires Covers(g, root) && pc < |g.nodes| && o < |g.values|
  {
    var r := root[o];
    && r in Defined(g, pc) && r < |root| && root[r] == r && SameSize(g, r, o)
    && SharersDead(g, root, pc, r, pc)
  }

  /** How the output at position j of step pc may get its buffer. */
  ghost predicate OutputSafe(g: Graph, root: seq<nat>, pc: nat, j: nat)
    requires Covers(g, root) && pc < |g.nodes| && j < |g.nodes[pc].outputs|
  {
    var out := g.nodes[pc].outputs[j];
    out.Some? && out.value < |g.values| ==>
      var o := out.value;
      Fresh(g, root, pc, o) || Aliased(g, root, pc, j, o) || Inplace(g, root, pc, j, o) || Recycled(g, root, pc, o)
  }

  /** Two outputs of one step share a buffer only if both alias what is in it. */
  ghost predicate OutputsApart(g: Graph, root: seq<nat>, pc: nat, i: nat, j: nat)
    requires Covers(g, root) && pc < |g.nodes| && i < |g.nodes[pc].outputs| && j < |g.nodes[pc].outputs|
  {
    var a, b := g.nodes[pc].outputs[i], g.nodes[pc].outputs[j];
    a.Some? && b.Some? && a.value < |root| && b.value < |root| && root[a.value] == root[b.value] ==>
      Aliased(g, root, pc, i, a.value) && Aliased(g, root, pc, j, b.value)
  }

  /** The first n outputs of step pc are placed safely. */
  ghost predicate StepSafe(g: Graph, root: seq<nat>, pc: nat, n: nat)
    requires Covers(g, root) && pc < |g.nodes| && n <= |g.nodes[pc].outputs|
  {
    && (forall j :: 0 <= j < n ==> OutputSafe(g, root, pc, j))
    && (forall i, j :: 0 <= i < j < n ==> OutputsApart(g, root, pc, i, j))
  }

  /** Releasing buffer r after step pc takes nothing away from anybody. */
  ghost predicate ReleaseSafe(g: Graph, root: seq<nat>, pc: nat, r: nat)
    requires Covers(g, root) && pc < |g.nodes|
  {
    && r < |root| && root[r] == r && r in Defined(g, pc + 1)
    && forall v :: 0 <= v < |root| && root[v] == r ==> v in Defined(g, pc + 1) && Dead(g, v, pc + 1)
  }

  ghost predicate RootsOk(g: Graph, root: seq<nat>, pc: nat)
    requires Covers(g, root) && pc <= |g.nodes|
  {
    && (forall v :: 0 <= v < |root| ==> root[v] < |root| && root[root[v]] == root[v])
    && (forall v :: 0 <= v < |root| && IsSource(g, v) ==> root[v] == v)
    && (forall v :: v in Defined(g, pc) && v < |root| ==> root[v] in Defined(g, pc))
  }

  ghost function RootMap(plan: Plan): (root: seq<nat>)
    ensures |root| == |plan.alloc|
  {
    seq(|plan.alloc|, v requires 0 <= v < |plan.alloc| => Root(plan.alloc, v))
  }

  predicate InRange(step: StepPlan, i: int) {
    step.freeFrom <= i <= step.freeTo
  }

  /** Everything step pc releases may be released there. */
  ghost predicate RangeSafe(g: Graph, plan: Plan, root: seq<nat>, pc: nat)
    requires Covers(g, root) && pc < |g.nodes| && pc < |plan.steps|
  {
    forall i :: InRange(plan.steps[pc], i) ==>
      0 <= i < |plan.toBeFreed| && ReleaseSafe(g, root, pc, plan.toBeFreed[i])
  }

  /** A plan an executor may follow without any check of its own. */
  ghost predicate SafePlan(g: Graph, plan: Plan) {
    && |plan.alloc| == |g.values| && |plan.steps| == |g.nodes|
    && var root := RootMap(plan);
    && RootsOk(g, root, |g.nodes|)
    && (forall pc :: 0 <= pc < |g.nodes| ==> StepSafe(g, root, pc, |g.nodes[pc].outputs|))
    && (forall pc :: 0 <= pc < |g.nodes| ==> RangeSafe(g, plan, root, pc))
    && (forall v :: 0 <= v < |g.values| && plan.alloc[v].kind.Reuse? ==> g.values[v].isTensor && root[v] != v)
    && (forall v :: 0 <= v < |g.values| && plan.alloc[v].kind.Reuse? ==> g.values[root[v]].isTensor)
    && (forall v :: v in Defined(g, |g.nodes|) && v !in Sources(g) ==>
          v < |g.values| && plan.alloc[v].kind in {Allocate, AllocateOutput, Reuse})
  }

  /** Placement of a step depends only on where the values produced so far live. */
  lemma StepSafeFrame(g: Graph, root: seq<nat>, root': seq<nat>, pc: nat, n: nat)
    requires Covers(g, root) && Covers(g, root') && WellFormed(g)
    requires pc < |g.nodes| && n <= |g.nodes[pc].outputs|
    requires forall v :: v in Defined(g, pc) && v < |root| ==> root'[v] == root[v]
    requires forall j :: 0 <= j < n && g.nodes[pc].outputs[j].Some? && g.nodes[pc].outputs[j].value < |root| ==>
               root'[g.nodes[pc].outputs[j].value] == root[g.nodes[pc].outputs[j].value]
    requires StepSafe(g, root, pc, n)
    ensures StepSafe(g, root', pc, n)
  {
    forall j | 0 <= j < n
      ensures OutputSafe(g, root', pc, j)
    {
      OutputSafeFrame(g, root, root', pc, j);
    }
    forall i, j | 0 <= i < j < n
      ensures OutputsApart(g, root', pc, i, j)
    {
      assert OutputsApart(g, root, pc, i, j);
      var a, b := g.nodes[pc].outputs[i], g.nodes[pc].outputs[j];
      if a.Some? && b.Some? && a.value < |root| && b.value < |root| && root'[a.value] == root'[b.value] {
        AliasedFrame(g, root, root', pc, i, a.value);
        AliasedFrame(g, root, root', pc, j, b.value);
      }
    }
  }

  lemma AliasedFrame(g: Graph, root: seq<nat>, root': seq<nat>, pc: nat, j: nat, o: nat)
    requires Covers(g, root) && Covers(g, root') && WellFormed(g) && pc < |g.nodes| && o < |root|
    requires forall v :: v in Defined(g, pc) && v < |root| ==> root'[v] == root[v]
    requires root'[o] == root[o] && Aliased(g, root, pc, j, o)
    ensures Aliased(g, root', pc, j, o)
  {
    var node := g.nodes[pc];
    assert NodeOk(g, pc);
    var k: nat :| AliasPair(g, root, node, k, j, root[o]);
    var x := InputAt(node, node.kernelDef.value.alias[k].0);
    assert Some(x.value) in node.inputs;
    assert AliasPair(g, root', node, k, j, root'[o]);
  }

  lemma OutputSafeFrame(g: Graph, root: seq<nat>, root': seq<nat>, pc: nat, j: nat)
    requires Covers(g, root) && Covers(g, root') && WellFormed(g)
    requires pc < |g.nodes| && j < |g.nodes[pc].outputs|
    requires forall v :: v in Defined(g, pc) && v < |root| ==> root'[v] == root[v]
    requires g.nodes[pc].outputs[j].Some? && g.nodes[pc].outputs[j].value < |root| ==>
               root'[g.nodes[pc].outputs[j].value] == root[g.nodes[pc].outputs[j].value]
    requires OutputSafe(g, root, pc, j)
    ensures OutputSafe(g, root', pc, j)
  {
    var out := g.nodes[pc].outputs[j];
    if out.Some? && out.value < |g.values| {
      var o := out.value;
      if Aliased(g, root, pc, j, o) {
        AliasedFrame(g, root, root', pc, j, o);
      } else if Inplace(g, root, pc, j, o) {
        var node := g.nodes[pc];
        assert NodeOk(g, pc);
        var k: nat :| InplacePair(g, root, node, k, j, o);
        forall v | Some(v) in Reads(node)
          ensures v in Defined(g, pc)
        {
        }
        var x := InputAt(node, node.kernelDef.value.inplace[k].0);
        assert Some(x.value) in node.inputs;
        assert InplacePair(g, root', node, k, j, o);
      }
    }
  }
}
