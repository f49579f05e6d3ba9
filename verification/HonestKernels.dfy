/** Kernels that write their results one after the other, straight into the buffers they are given. */
module HonestKernels {
  import opened Wrappers
  import opened GraphModel
  import opened Kernels

  type Compute = (nat, seq<Option<Data>>) -> Option<seq<Data>>

  predicate Present(heap: Heap, args: seq<Option<nat>>) {
    forall i :: 0 <= i < |args| && args[i].Some? ==> args[i].value in heap
  }

  /** Memory after the first n results have been written. */
  function WriteTo(heap: Heap, to: seq<Option<nat>>, outs: seq<Data>, n: nat): (r: Heap)
    requires n <= |to| == |outs|
    ensures r.Keys == heap.Keys
    ensures forall b :: b in heap && Some(b) !in to ==> r[b] == heap[b]
  {
    if n == 0 then heap
    else
      var before := WriteTo(heap, to, outs, n - 1);
      if to[n - 1].Some? && to[n - 1].value in heap then before[to[n - 1].value := outs[n - 1]] else before
  }

  function WriteAll(compute: Compute, n: nat, from: seq<Option<nat>>, to: seq<Option<nat>>, heap: Heap): Heap {
    if !Present(heap, from) then heap
    else
      var results := compute(n, Look(heap, from));
      if results.Some? && |results.value| == |to| then WriteTo(heap, to, results.value, |to|) else heap
  }

  function Writer(compute: Compute): KernelSet {
    KernelSet(compute, (n, from, to, heap) => WriteAll(compute, n, from, to, heap))
  }

  /** What is in a written buffer is the result of the last output that went there. */
  lemma {:induction false} LastWriteWins(heap: Heap, to: seq<Option<nat>>, outs: seq<Data>, n: nat, j: nat)
    returns (i: nat)
    requires j < n <= |to| == |outs| && to[j].Some? && to[j].value in heap
    ensures j <= i < n && to[i] == to[j] && WriteTo(heap, to, outs, n)[to[j].value] == outs[i]
  {
    if to[n - 1] == to[j] {
      i := n - 1;
    } else {
      i := LastWriteWins(heap, to, outs, n - 1, j);
    }
  }

  /** An aliasing output carries what is already in its buffer. */
  lemma AliasCarries(g: Graph, ks: KernelSet, n: nat, from: seq<Option<nat>>, to: seq<Option<nat>>, heap: Heap, j: nat)
    requires n < |g.nodes| && InBounds(g.nodes[n], from, to) && (forall b :: Some(b) in from ==> b in heap)
    requires ks.compute(n, Look(heap, from)).Some? && ComputeHonours(g, ks, n, Look(heap, from))
    requires |ks.compute(n, Look(heap, from)).value| == |to|
    requires j < |to| && to[j].Some? && WritesAlias(g.nodes[n], from, to, j)
    ensures to[j].value in heap && ks.compute(n, Look(heap, from)).value[j] == heap[to[j].value]
  {
    var node := g.nodes[n];
    var k :| AliasOf(node, k, j) && from[node.kernelDef.value.alias[k].0] == to[j];
    assert Some(to[j].value) in from;
    assert Look(heap, from)[node.kernelDef.value.alias[k].0] == Some(heap[to[j].value]);
  }

  /** Whatever operators repeat their aliased inputs, the kernels that write results in order are honest. */
  lemma WriterHonours(g: Graph, compute: Compute)
    requires forall n: nat, ins :: ComputeHonours(g, Writer(compute), n, ins)
    ensures Honours(g, Writer(compute))
  {
    var ks := Writer(compute);
    forall n: nat, from, to, heap
      ensures RunHonours(g, ks, n, from, to, heap)
    {
      if && n < |g.nodes| && InBounds(g.nodes[n], from, to) && SharingPermitted(g.nodes[n], from, to)
         && (forall b :: Some(b) in from ==> b in heap)
         && ks.compute(n, Look(heap, from)).Some?
         && MemoryReady(heap, from, to, ks.compute(n, Look(heap, from)).value)
      {
        WritesRight(g, compute, n, from, to, heap);
      }
    }
  }

  lemma WritesRight(g: Graph, compute: Compute, n: nat, from: seq<Option<nat>>, to: seq<Option<nat>>, heap: Heap)
    requires n < |g.nodes| && InBounds(g.nodes[n], from, to) && SharingPermitted(g.nodes[n], from, to)
    requires (forall b :: Some(b) in from ==> b in heap) && compute(n, Look(heap, from)).Some?
    requires ComputeHonours(g, Writer(compute), n, Look(heap, from))
    requires MemoryReady(heap, from, to, compute(n, Look(heap, from)).value)
    ensures Written(heap, Writer(compute).run(n, from, to, heap), to, compute(n, Look(heap, from)).value)
  {
    var outs := compute(n, Look(heap, from)).value;
    assert Writer(compute).run(n, from, to, heap) == WriteTo(heap, to, outs, |to|);
    forall j | 0 <= j < |to| && to[j].Some? && to[j].value in heap
      ensures WriteTo(heap, to, outs, |to|)[to[j].value] == outs[j]
    {
      var i := LastWriteWins(heap, to, outs, |to|, j);
      if i != j {
        AliasCarries(g, Writer(compute), n, from, to, heap, i);
        AliasCarries(g, Writer(compute), n, from, to, heap, j);
      }
    }
  }
}
