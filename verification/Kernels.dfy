/**
 What a kernel computes, what it does to shared memory, and the run of a graph in which
 every value has a buffer of its own.
 */
module Kernels {
  import opened Wrappers
  import opened GraphModel

  type Data = seq<int>
  type Heap = map<nat, Data>
  type Env = map<nat, Data>

  /**
   `compute` is the operator: contents of everything read (missing optional arguments are
   None) to contents of every output position, or None when the kernel reports failure.
   `run` is what the kernel does to memory: buffers read, buffers written, memory before.
   */
  datatype KernelSet = KernelSet(
    compute: (nat, seq<Option<Data>>) -> Option<seq<Data>>,
    run: (nat, seq<Option<nat>>, seq<Option<nat>>, Heap) -> Heap)

  datatype Outcome = Outputs(data: seq<Data>) | Failed(step: nat) | Broken

  /** Contents of the given arguments. */
  function Look(env: Env, args: seq<Option<nat>>): (r: seq<Option<Data>>)
    requires forall v :: Some(v) in args ==> v in env
    ensures |r| == |args|
    ensures forall i :: 0 <= i < |args| ==> r[i] == if args[i].Some? then Some(env[args[i].value]) else None
  {
    if args == [] then []
    else
      var head := if args[0].Some? then assert Some(args[0].value) in args; Some(env[args[0].value]) else None;
      [head] + Look(env, args[1..])
  }

  /** The environment after the first n outputs have been bound. */
  function Bind(env: Env, outputs: seq<Option<nat>>, outs: seq<Data>, n: nat): (r: Env)
    requires n <= |outputs| == |outs|
  {
    if n == 0 then env
    else if outputs[n - 1].Some? then Bind(env, outputs, outs, n - 1)[outputs[n - 1].value := outs[n - 1]]
    else Bind(env, outputs, outs, n - 1)
  }

  /** Kernel n yields one result per output position, and aliased outputs repeat their input. */
  ghost predicate ComputeHonours(g: Graph, ks: KernelSet, n: nat, ins: seq<Option<Data>>) {
    n < |g.nodes| && |ins| == |Reads(g.nodes[n])| && ks.compute(n, ins).Some? ==>
      var node, outs := g.nodes[n], ks.compute(n, ins).value;
      && |outs| == |node.outputs|
      && forall k, j :: AliasOf(node, k, j) && ins[node.kernelDef.value.alias[k].0].Some? ==>
           outs[j] == ins[node.kernelDef.value.alias[k].0].value
  }

  /** The k-th alias pair ties a real input position to output position j. */
  ghost predicate AliasOf(node: Node, k: int, j: int) {
    && node.kernelDef.Some? && 0 <= k < |node.kernelDef.value.alias|
    && 0 <= node.kernelDef.value.alias[k].0 < |node.inputs| && node.kernelDef.value.alias[k].1 == j
    && 0 <= j < |node.outputs|
  }

  /** The k-th in-place pair ties input position p to output position j. */
  ghost predicate InplaceOf(node: Node, k: int, p: int, j: int) {
    && node.kernelDef.Some? && 0 <= k < |node.kernelDef.value.inplace|
    && 0 <= p < |node.inputs| && node.kernelDef.value.inplace[k] == (p, j)
    && 0 <= j < |node.outputs|
  }

  ghost predicate InBounds(node: Node, from: seq<Option<nat>>, to: seq<Option<nat>>) {
    |from| == |Reads(node)| && |to| == |node.outputs|
  }

  /** Output j is written into the buffer of an input it aliases. */
  ghost predicate WritesAlias(node: Node, from: seq<Option<nat>>, to: seq<Option<nat>>, j: int)
    requires InBounds(node, from, to) && 0 <= j < |to|
  {
    exists k :: AliasOf(node, k, j) && from[node.kernelDef.value.alias[k].0] == to[j]
  }

  /** Output j overwrites input p, which it may, and no other argument lives there. */
  ghost predicate WritesInplace(node: Node, from: seq<Option<nat>>, to: seq<Option<nat>>, p: int, j: int)
    requires InBounds(node, from, to) && 0 <= j < |to|
  {
    && (exists k :: InplaceOf(node, k, p, j))
    && forall q :: 0 <= q < |from| && q != p ==> from[q] != to[j]
  }

  /** Input and output buffers coincide only where the kernel declared that it can cope. */
  ghost predicate SharingPermitted(node: Node, from: seq<Option<nat>>, to: seq<Option<nat>>)
    requires InBounds(node, from, to)
  {
    && (forall p, j :: 0 <= p < |from| && 0 <= j < |to| && to[j].Some? && from[p] == to[j] ==>
          WritesAlias(node, from, to, j) || WritesInplace(node, from, to, p, j))
    && (forall i, j :: 0 <= i < j < |to| && to[i].Some? && to[i] == to[j] ==>
          WritesAlias(node, from, to, i) && WritesAlias(node, from, to, j))
  }

  /** Memory holds what is read, and every output buffer has the size of its result. */
  ghost predicate MemoryReady(heap: Heap, from: seq<Option<nat>>, to: seq<Option<nat>>, outs: seq<Data>) {
    && (forall p :: 0 <= p < |from| && from[p].Some? ==> from[p].value in heap)
    && |to| == |outs|
    && (forall j :: 0 <= j < |to| && to[j].Some? ==> to[j].value in heap && |heap[to[j].value]| == |outs[j]|)
  }

  /** After the kernel the output buffers hold the results and no other buffer has changed. */
  ghost predicate Written(heap: Heap, heap': Heap, to: seq<Option<nat>>, outs: seq<Data>) {
    && heap'.Keys == heap.Keys && |to| == |outs|
    && (forall j :: 0 <= j < |to| && to[j].Some? && to[j].value in heap' ==> heap'[to[j].value] == outs[j])
    && (forall b :: b in heap && Some(b) !in to ==> heap'[b] == heap[b])
  }

  /** Kernel n behaves when its sharing is permitted; otherwise it may do anything. */
  ghost predicate RunHonours(g: Graph, ks: KernelSet, n: nat, from: seq<Option<nat>>, to: seq<Option<nat>>,
                             heap: Heap) {
    n < |g.nodes| && InBounds(g.nodes[n], from, to) && SharingPermitted(g.nodes[n], from, to)
    && (forall b :: Some(b) in from ==> b in heap)
    && ks.compute(n, Look(heap, from)).Some?
    && MemoryReady(heap, from, to, ks.compute(n, Look(heap, from)).value) ==>
      Written(heap, ks.run(n, from, to, heap), to, ks.compute(n, Look(heap, from)).value)
  }

  /** Every kernel honours its Alias and MayInplace declarations. */
  ghost predicate Honours(g: Graph, ks: KernelSet) {
    && (forall n: nat, ins :: ComputeHonours(g, ks, n, ins))
    && (forall n: nat, from, to, heap :: RunHonours(g, ks, n, from, to, heap))
  }

  /** All contents have the size inferred for them, with these values of the named dimensions. */
  ghost predicate SizesInferred(g: Graph, env: Env, rho: Unknowns) {
    forall v :: v in env && SizeKnown(g, v) ==> |env[v]| == Bytes(g, v, rho)
  }

  /** Shape inference is right about these contents. */
  ghost predicate ShapesSound(g: Graph, env: Env) {
    exists rho :: SizesInferred(g, env, rho)
  }

  lemma SoundSizes(g: Graph, env: Env, u: nat, v: nat)
    requires ShapesSound(g, env) && u in env && v in env && u < |g.values| && v < |g.values| && SameSize(g, u, v)
    ensures |env[u]| == |env[v]|
  {
    var rho :| SizesInferred(g, env, rho);
    SameSizeSameBytes(g, u, v, rho);
    hide Bytes, SameSize;
  }

  ghost predicate EnvAt(g: Graph, env: Env, pc: nat) {
    WellFormed(g) && pc <= |g.nodes| && env.Keys == Defined(g, pc)
  }

  lemma ReadsDefined(g: Graph, pc: nat)
    requires WellFormed(g) && pc < |g.nodes|
    ensures forall v :: Some(v) in Reads(g.nodes[pc]) ==> v in Defined(g, pc)
  {
    assert NodeOk(g, pc);
  }

  /** The results of step pc, computed from an environment that gives each value a place of its own. */
  ghost function Results(g: Graph, ks: KernelSet, env: Env, pc: nat): Option<seq<Data>>
    requires EnvAt(g, env, pc) && pc < |g.nodes|
  {
    ReadsDefined(g, pc);
    ks.compute(pc, Look(env, Reads(g.nodes[pc])))
  }

  ghost function Next(g: Graph, ks: KernelSet, env: Env, pc: nat): (env': Env)
    requires EnvAt(g, env, pc) && pc < |g.nodes| && Honours(g, ks) && Results(g, ks, env, pc).Some?
    ensures EnvAt(g, env', pc + 1)
  {
    var node, outs := g.nodes[pc], Results(g, ks, env, pc).value;
    ReadsDefined(g, pc);
    assert ComputeHonours(g, ks, pc, Look(env, Reads(node)));
    BindKeys(env, node.outputs, outs, |node.outputs|);
    assert node.outputs[..|node.outputs|] == node.outputs;
    Bind(env, node.outputs, outs, |node.outputs|)
  }

  lemma {:induction false} BindKeys(env: Env, outputs: seq<Option<nat>>, outs: seq<Data>, n: nat)
    requires n <= |outputs| == |outs|
    ensures Bind(env, outputs, outs, n).Keys == env.Keys + Elements(Existing(outputs[..n]))
  {
    if n == 0 {
      assert outputs[..0] == [];
    } else {
      BindKeys(env, outputs, outs, n - 1);
      assert forall v :: Some(v) in outputs[..n] <==> Some(v) in outputs[..n - 1] || outputs[n - 1] == Some(v) by {
        assert outputs[..n] == outputs[..n - 1] + [outputs[n - 1]];
      }
    }
  }

  /** The run in which no two values share a buffer: it ends with the graph outputs or at a failing kernel. */
  ghost function ReferenceRun(g: Graph, ks: KernelSet, env: Env, pc: nat): Outcome
    requires EnvAt(g, env, pc) && Honours(g, ks)
    decreases |g.nodes| - pc
  {
    if pc == |g.nodes| then Outputs(seq(|g.outputs|, i requires 0 <= i < |g.outputs| => env[g.outputs[i]]))
    else if Results(g, ks, env, pc).None? then Failed(pc)
    else ReferenceRun(g, ks, Next(g, ks, env, pc), pc + 1)
  }

  /** Shape inference is right about everything this run computes. */
  ghost predicate RunShapesSound(g: Graph, ks: KernelSet, env: Env, pc: nat)
    requires EnvAt(g, env, pc) && Honours(g, ks)
    decreases |g.nodes| - pc
  {
    && ShapesSound(g, env)
    && (pc < |g.nodes| && Results(g, ks, env, pc).Some? ==> RunShapesSound(g, ks, Next(g, ks, env, pc), pc + 1))
  }
}
