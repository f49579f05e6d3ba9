/** Why following a safe plan computes the same values as giving every value its own buffer. */
module SharedRun {
  import opened Wrappers
  import opened GraphModel
  import opened PlanSafety
  import opened Kernels

  /** A slot of the execution frame; a buffer is named after the value it was allocated for. */
  datatype MLValue = NotAllocated | Allocated(buf: nat)

  /** What a new buffer holds. */
  function Zeros(n: nat): (r: Data)
    ensures |r| == n && forall i :: 0 <= i < n ==> r[i] == 0
  {
    seq(n, _ => 0)
  }

  /** Buffer contents are right for every value that is still needed. */
  ghost predicate LiveMatch(g: Graph, root: seq<nat>, values: seq<MLValue>, heap: Heap, env: Env, pc: nat) {
    && pc <= |g.nodes| && |values| == |root| == |g.values|
    && forall v :: v in env && v < |values| && !Dead(g, v, pc) ==>
         values[v].Allocated? && root[v] in heap && heap[root[v]] == env[v]
  }

  /** Slots filled so far point at their root's buffer. */
  ghost predicate SlotsMatch(root: seq<nat>, values: seq<MLValue>, env: Env) {
    && |values| == |root|
    && forall v :: 0 <= v < |values| && values[v].Allocated? ==> v in env && values[v].buf == root[v]
  }

  /** A root that has not been released is allocated, with the size its value has. */
  ghost predicate RootsKept(root: seq<nat>, values: seq<MLValue>, heap: Heap, env: Env, gone: set<nat>) {
    && |values| == |root|
    && forall r :: r in env && r < |root| && root[r] == r && r !in gone ==>
         values[r].Allocated? && r in heap && |heap[r]| == |env[r]|
  }

  /** Values that share a buffer have contents of the same size. */
  ghost predicate SizesMatch(root: seq<nat>, env: Env) {
    forall v :: v in env ==> v < |root| && root[v] in env && |env[v]| == |env[root[v]]|
  }

  /** Nobody will ever again look at a released buffer. */
  ghost predicate GoneDead(g: Graph, root: seq<nat>, gone: set<nat>, pc: nat) {
    && pc <= |g.nodes| && |root| == |g.values|
    && forall v :: 0 <= v < |root| && root[v] in gone ==> v in Defined(g, pc) && Dead(g, v, pc)
  }

  /** The frame agrees with the environment of the reference run before step pc. */
  ghost predicate Matches(g: Graph, root: seq<nat>, values: seq<MLValue>, heap: Heap, env: Env, gone: set<nat>,
                          pc: nat) {
    && EnvAt(g, env, pc)
    && LiveMatch(g, root, values, heap, env, pc)
    && SlotsMatch(root, values, env)
    && RootsKept(root, values, heap, env, gone)
    && SizesMatch(root, env)
    && GoneDead(g, root, gone, pc)
  }

  /** What the static planner guarantees about one step. */
  ghost predicate StepPlanned(g: Graph, root: seq<nat>, pc: nat) {
    && pc < |g.nodes| && Covers(g, root)
    && (forall v :: 0 <= v < |root| ==> root[v] < |root| && root[root[v]] == root[v])
    && StepSafe(g, root, pc, |g.nodes[pc].outputs|)
  }

  ghost function RootArgs(root: seq<nat>, args: seq<Option<nat>>): (r: seq<Option<nat>>)
    ensures |r| == |args|
    ensures forall i :: 0 <= i < |args| ==>
              r[i] == if args[i].Some? && args[i].value < |root| then Some(root[args[i].value]) else None
  {
    seq(|args|, i requires 0 <= i < |args| =>
          if args[i].Some? && args[i].value < |root| then Some(root[args[i].value]) else None)
  }

  /** Everything step pc reads is in memory and right. */
  lemma ReadsMatch(g: Graph, root: seq<nat>, values: seq<MLValue>, heap: Heap, env: Env, gone: set<nat>, pc: nat,
                   p: nat)
    requires Matches(g, root, values, heap, env, gone, pc) && pc < |g.nodes|
    requires p < |Reads(g.nodes[pc])| && Reads(g.nodes[pc])[p].Some?
    ensures var v := Reads(g.nodes[pc])[p].value;
            && v in env && v < |values| == |root| && values[v] == Allocated(root[v]) && root[v] in heap
            && heap[root[v]] == env[v]
            && !Dead(g, v, pc)
  {
    var node := g.nodes[pc];
    var v := Reads(node)[p].value;
    assert Some(v) in Reads(node);
    ReadsDefined(g, pc);
    DefinedInRange(g, pc, v);
    assert v in Touched(node);
  }

  lemma LooksTheSame(g: Graph, root: seq<nat>, values: seq<MLValue>, heap: Heap, env: Env, gone: set<nat>, pc: nat)
    requires Matches(g, root, values, heap, env, gone, pc) && pc < |g.nodes|
    ensures forall v :: Some(v) in Reads(g.nodes[pc]) ==> v in env
    ensures forall b :: Some(b) in RootArgs(root, Reads(g.nodes[pc])) ==> b in heap
    ensures Look(heap, RootArgs(root, Reads(g.nodes[pc]))) == Look(env, Reads(g.nodes[pc]))
  {
    hide *;
    var args := Reads(g.nodes[pc]);
    forall p | 0 <= p < |args| && args[p].Some?
      ensures args[p].value in env && args[p].value < |root| && root[args[p].value] in heap
      ensures heap[root[args[p].value]] == env[args[p].value]
    {
      ReadsMatch(g, root, values, heap, env, gone, pc, p);
    }
  }

  /** Output o, at position j, may share its buffer with an input only where the kernel allows it. */
  lemma PermittedInput(g: Graph, root: seq<nat>, pc: nat, p: nat, j: nat)
    requires WellFormed(g) && StepPlanned(g, root, pc)
    requires var node := g.nodes[pc];
             && p < |Reads(node)| && Reads(node)[p].Some? && j < |node.outputs| && node.outputs[j].Some?
             && Reads(node)[p].value < |root| && node.outputs[j].value < |root|
             && root[Reads(node)[p].value] == root[node.outputs[j].value]
             && Reads(node)[p].value in Defined(g, pc) && !Dead(g, Reads(node)[p].value, pc)
    ensures var node := g.nodes[pc];
            var from, to := RootArgs(root, Reads(node)), RootArgs(root, node.outputs);
            WritesAlias(node, from, to, j) || WritesInplace(node, from, to, p, j)
  {
    hide WellFormed, StepPlanned, Defined, Dead, WritesAlias, WritesInplace, RootArgs, Aliased, InplacePair, SameSize;
    PlannedOutput(g, root, pc, j);
    var node := g.nodes[pc];
    var o := node.outputs[j].value;
    if Aliased(g, root, pc, j, o) {
      AliasedWrites(g, root, pc, j);
    } else {
      assert Inplace(g, root, pc, j, o);
      var k: nat :| InplacePair(g, root, node, k, j, o);
      InplaceWrites(g, root, pc, p, j, k);
    }
  }

  lemma PlannedOutput(g: Graph, root: seq<nat>, pc: nat, j: nat)
    requires StepPlanned(g, root, pc) && j < |g.nodes[pc].outputs|
    ensures pc < |g.nodes| && Covers(g, root) && OutputSafe(g, root, pc, j)
  {
  }

  lemma InplaceWrites(g: Graph, root: seq<nat>, pc: nat, p: nat, j: nat, k: nat)
    requires pc < |g.nodes| && Covers(g, root) && NodeInRange(g, g.nodes[pc]) && g.nodes[pc].kernelDef.Some?
    requires var node := g.nodes[pc];
             && p < |Reads(node)| && Reads(node)[p].Some? && j < |node.outputs| && node.outputs[j].Some?
             && Reads(node)[p].value < |root| && node.outputs[j].value < |root|
             && root[Reads(node)[p].value] == root[node.outputs[j].value]
             && InplacePair(g, root, node, k, j, node.outputs[j].value)
    ensures WritesInplace(g.nodes[pc], RootArgs(root, Reads(g.nodes[pc])), RootArgs(root, g.nodes[pc].outputs), p, j)
  {
    hide SameSize;
    var node := g.nodes[pc];
    var i := node.kernelDef.value.inplace[k].0;
    assert SoleReader(root, node, i, root[node.outputs[j].value]);
    assert InplaceOf(node, k, i, j);
  }

  lemma AliasedWrites(g: Graph, root: seq<nat>, pc: nat, j: nat)
    requires pc < |g.nodes| && Covers(g, root) && j < |g.nodes[pc].outputs| && g.nodes[pc].outputs[j].Some?
    requires g.nodes[pc].outputs[j].value < |root| && Aliased(g, root, pc, j, g.nodes[pc].outputs[j].value)
    ensures WritesAlias(g.nodes[pc], RootArgs(root, Reads(g.nodes[pc])), RootArgs(root, g.nodes[pc].outputs), j)
  {
    var node := g.nodes[pc];
    var k: nat :| AliasPair(g, root, node, k, j, root[node.outputs[j].value]);
    var i := node.kernelDef.value.alias[k].0;
    assert AliasOf(node, k, j);
    assert Reads(node)[i] == node.inputs[i];
  }

  lemma Permitted(g: Graph, root: seq<nat>, values: seq<MLValue>, heap: Heap, env: Env, gone: set<nat>, pc: nat)
    requires Matches(g, root, values, heap, env, gone, pc) && StepPlanned(g, root, pc)
    ensures InBounds(g.nodes[pc], RootArgs(root, Reads(g.nodes[pc])), RootArgs(root, g.nodes[pc].outputs))
    ensures SharingPermitted(g.nodes[pc], RootArgs(root, Reads(g.nodes[pc])), RootArgs(root, g.nodes[pc].outputs))
  {
    var node := g.nodes[pc];
    var from, to := RootArgs(root, Reads(node)), RootArgs(root, node.outputs);
    forall p, j | 0 <= p < |from| && 0 <= j < |to| && to[j].Some? && from[p] == to[j]
      ensures WritesAlias(node, from, to, j) || WritesInplace(node, from, to, p, j)
    {
      ReadsMatch(g, root, values, heap, env, gone, pc, p);
      PermittedInput(g, root, pc, p, j);
    }
    forall i, j | 0 <= i < j < |to| && to[i].Some? && to[i] == to[j]
      ensures WritesAlias(node, from, to, i) && WritesAlias(node, from, to, j)
    {
      assert OutputsApart(g, root, pc, i, j);
      AliasedWrites(g, root, pc, i);
      AliasedWrites(g, root, pc, j);
    }
  }

  /** The output positions of step pc, its results and the environments around it. */
  ghost predicate StepEnv(g: Graph, ks: KernelSet, env: Env, env': Env, outs: seq<Data>, pc: nat) {
    && EnvAt(g, env, pc) && pc < |g.nodes| && Honours(g, ks)
    && Results(g, ks, env, pc) == Some(outs) && env' == Next(g, ks, env, pc) && |outs| == |g.nodes[pc].outputs|
  }

  lemma {:induction false} BindLookup(env: Env, outputs: seq<Option<nat>>, outs: seq<Data>, n: nat, j: nat)
    requires j < n <= |outputs| == |outs| && outputs[j].Some?
    requires forall i :: j < i < n ==> outputs[i] != outputs[j]
    ensures outputs[j].value in Bind(env, outputs, outs, n) && Bind(env, outputs, outs, n)[outputs[j].value] == outs[j]
  {
    if j < n - 1 { BindLookup(env, outputs, outs, n - 1, j); }
  }

  lemma {:induction false} BindKeeps(env: Env, outputs: seq<Option<nat>>, outs: seq<Data>, n: nat, v: nat)
    requires n <= |outputs| == |outs| && v in env && Some(v) !in outputs
    ensures v in Bind(env, outputs, outs, n) && Bind(env, outputs, outs, n)[v] == env[v]
  {
    if n > 0 { BindKeeps(env, outputs, outs, n - 1, v); }
  }

  lemma OutputsDistinct(g: Graph, pc: nat, i: nat, j: nat)
    requires WellFormed(g) && pc < |g.nodes| && i < j < |g.nodes[pc].outputs| && g.nodes[pc].outputs[i].Some?
    ensures g.nodes[pc].outputs[i] != g.nodes[pc].outputs[j]
  {
    assert NodeOk(g, pc);
    DistinctArgs(g.nodes[pc].outputs, i, j);
  }

  lemma {:induction false} DistinctArgs(args: seq<Option<nat>>, i: nat, j: nat)
    requires i < j < |args| && args[i].Some? && NoRepeats(Existing(args))
    ensures args[i] != args[j]
  {
    var rest := args[1..];
    var found := Existing(args);
    assert forall k :: 0 <= k < |Existing(rest)| ==> Existing(rest)[k] == found[k + if args[0].Some? then 1 else 0];
    if i == 0 {
      assert forall k :: 0 <= k < |Existing(rest)| ==> Existing(rest)[k] != found[0];
      assert args[0] !in rest;
      assert rest[j - 1] == args[j];
    } else {
      DistinctArgs(rest, i - 1, j - 1);
    }
  }

  /** What the environment after the step says. */
  lemma AfterStep(g: Graph, ks: KernelSet, env: Env, env': Env, outs: seq<Data>, pc: nat)
    requires StepEnv(g, ks, env, env', outs, pc)
    ensures forall j :: 0 <= j < |outs| && g.nodes[pc].outputs[j].Some? ==>
              g.nodes[pc].outputs[j].value in env' && env'[g.nodes[pc].outputs[j].value] == outs[j]
    ensures forall v :: v in env ==> v in env' && env'[v] == env[v] && Some(v) !in g.nodes[pc].outputs
    ensures forall v :: v in env' ==> v in env || Some(v) in g.nodes[pc].outputs
    ensures forall v :: v in env' ==> v < |g.values|
  {
    var outputs := g.nodes[pc].outputs;
    assert NodeOk(g, pc);
    forall j | 0 <= j < |outs| && outputs[j].Some?
      ensures outputs[j].value in env' && env'[outputs[j].value] == outs[j]
    {
      forall i | j < i < |outputs|
        ensures outputs[i] != outputs[j]
      {
        OutputsDistinct(g, pc, j, i);
      }
      BindLookup(env, outputs, outs, |outputs|, j);
    }
    forall v | v in env
      ensures v in env' && env'[v] == env[v] && Some(v) !in outputs
    {
      assert v in Existing(outputs) <==> Some(v) in outputs;
      BindKeeps(env, outputs, outs, |outputs|, v);
    }
    forall v | v in env'
      ensures v < |g.values|
    {
      DefinedInRange(g, pc + 1, v);
    }
  }

  /** An aliased output repeats the contents of an input that lives in the same buffer. */
  lemma AliasRepeats(g: Graph, ks: KernelSet, root: seq<nat>, env: Env, env': Env, outs: seq<Data>, pc: nat, j: nat)
    returns (x: nat)
    requires StepEnv(g, ks, env, env', outs, pc) && Covers(g, root)
    requires j < |outs| && g.nodes[pc].outputs[j].Some? && g.nodes[pc].outputs[j].value < |root|
    requires Aliased(g, root, pc, j, g.nodes[pc].outputs[j].value)
    ensures x in env && x < |root| && root[x] == root[g.nodes[pc].outputs[j].value] && outs[j] == env[x]
            && !Dead(g, x, pc)
  {
    var node := g.nodes[pc];
    ReadsDefined(g, pc);
    var k: nat :| AliasPair(g, root, node, k, j, root[node.outputs[j].value]);
    var i := node.kernelDef.value.alias[k].0;
    x := node.inputs[i].value;
    assert Reads(node)[i] == Some(x) && Some(x) in Reads(node);
    assert ComputeHonours(g, ks, pc, Look(env, Reads(node)));
    assert AliasOf(node, k, j);
    assert x in Touched(node) by { assert Some(x) in node.inputs; }
  }

  /** A shared output has exactly the size of the buffer it goes into. */
  lemma SharedSize(g: Graph, ks: KernelSet, root: seq<nat>, env: Env, env': Env, outs: seq<Data>, pc: nat, j: nat)
    requires StepEnv(g, ks, env, env', outs, pc) && StepPlanned(g, root, pc) && ShapesSound(g, env')
             && SizesMatch(root, env)
    requires j < |outs| && g.nodes[pc].outputs[j].Some? && g.nodes[pc].outputs[j].value < |root|
    requires root[g.nodes[pc].outputs[j].value] != g.nodes[pc].outputs[j].value
    ensures var r := root[g.nodes[pc].outputs[j].value]; r in env && |env[r]| == |outs[j]|
  {
    var node := g.nodes[pc];
    var o := node.outputs[j].value;
    AfterStep(g, ks, env, env', outs, pc);
    assert OutputSafe(g, root, pc, j);
    if Aliased(g, root, pc, j, o) {
      var x := AliasRepeats(g, ks, root, env, env', outs, pc, j);
    } else if Inplace(g, root, pc, j, o) {
      var k: nat :| InplacePair(g, root, node, k, j, o);
      var x := InputAt(node, node.kernelDef.value.inplace[k].0).value;
      assert Some(x) in node.inputs && Some(x) in Reads(node);
      ReadsDefined(g, pc);
      SoundSizes(g, env', x, o);
    } else {
      assert Recycled(g, root, pc, o);
      SoundSizes(g, env', root[o], o);
    }
  }

  /** Whoever still needs the buffer an output is written to finds its own contents there. */
  lemma OverwriteHarmless(g: Graph, ks: KernelSet, root: seq<nat>, values: seq<MLValue>, heap: Heap, env: Env,
                          env': Env,
                          outs: seq<Data>, pc: nat, j: nat, v: nat)
    requires StepEnv(g, ks, env, env', outs, pc) && StepPlanned(g, root, pc)
    requires LiveMatch(g, root, values, heap, env, pc)
    requires j < |outs| && g.nodes[pc].outputs[j].Some? && g.nodes[pc].outputs[j].value < |root|
    requires v in env && v < |root| && !Dead(g, v, pc + 1) && root[v] == root[g.nodes[pc].outputs[j].value]
    ensures env[v] == outs[j]
  {
    var o := g.nodes[pc].outputs[j].value;
    assert OutputSafe(g, root, pc, j);
    assert v in Events(g, pc);
    assert Aliased(g, root, pc, j, o);
    var x := AliasRepeats(g, ks, root, env, env', outs, pc, j);
    assert heap[root[v]] == env[v];
    assert heap[root[x]] == env[x];
  }

  /** Values v with a slot filled by one of the first n outputs of step pc. */
  ghost predicate IsOutput(g: Graph, pc: nat, n: nat, v: nat)
    requires pc < |g.nodes| && n <= |g.nodes[pc].outputs|
  {
    Some(v) in g.nodes[pc].outputs[..n]
  }

  /** One of the first n outputs, with a buffer of its own. */
  ghost predicate OwnsBuffer(g: Graph, root: seq<nat>, pc: nat, n: nat, b: nat)
    requires pc < |g.nodes| && n <= |g.nodes[pc].outputs|
  {
    b < |root| && root[b] == b && IsOutput(g, pc, n, b)
  }

  /** Slots and memory after the first n outputs of step pc have been allocated or pointed at their root. */
  ghost predicate Placed(g: Graph, root: seq<nat>, values: seq<MLValue>, heap: Heap, values': seq<MLValue>, heap': Heap,
                         outs: seq<Data>, pc: nat, n: nat) {
    && pc < |g.nodes| && n <= |g.nodes[pc].outputs| == |outs| && |values'| == |values| == |root|
    && (forall v :: 0 <= v < |values| ==> values'[v] == if IsOutput(g, pc, n, v) then Allocated(root[v]) else values[v])
    && (forall b :: b in heap' <==> b in heap || OwnsBuffer(g, root, pc, n, b))
    && (forall b :: b in heap && !OwnsBuffer(g, root, pc, n, b) ==> heap'[b] == heap[b])
    && (forall j ::
          0 <= j < n && g.nodes[pc].outputs[j].Some? && OwnsBuffer(g, root, pc, n, g.nodes[pc].outputs[j].value) ==>
            |heap'[g.nodes[pc].outputs[j].value]| == |outs[j]|)
  }

  /** A buffer that is about to be shared has not been released and is big enough. */
  lemma RootAvailable(g: Graph, ks: KernelSet, root: seq<nat>, values: seq<MLValue>, heap: Heap, env: Env, env': Env,
                      gone: set<nat>, outs: seq<Data>, pc: nat, j: nat)
    requires StepEnv(g, ks, env, env', outs, pc) && StepPlanned(g, root, pc) && ShapesSound(g, env')
    requires Matches(g, root, values, heap, env, gone, pc)
    requires j < |outs| && g.nodes[pc].outputs[j].Some? && g.nodes[pc].outputs[j].value < |root|
    requires root[g.nodes[pc].outputs[j].value] != g.nodes[pc].outputs[j].value
    ensures var r := root[g.nodes[pc].outputs[j].value];
            r in env && r < |values| && values[r] == Allocated(r) && r in heap && |heap[r]| == |outs[j]|
  {
    var o := g.nodes[pc].outputs[j].value;
    SharedSize(g, ks, root, env, env', outs, pc, j);
    AfterStep(g, ks, env, env', outs, pc);
    assert o !in env by { assert g.nodes[pc].outputs[j] in g.nodes[pc].outputs; }
    assert root[o] !in gone;
  }

  /** Memory just before the kernel of step pc runs. */
  lemma BeforeKernel(g: Graph, ks: KernelSet, root: seq<nat>, values: seq<MLValue>, heap: Heap, env: Env, env': Env,
                     gone: set<nat>, values': seq<MLValue>, heap': Heap, outs: seq<Data>, pc: nat)
    requires StepEnv(g, ks, env, env', outs, pc) && StepPlanned(g, root, pc) && ShapesSound(g, env')
    requires Matches(g, root, values, heap, env, gone, pc)
    requires Placed(g, root, values, heap, values', heap', outs, pc, |g.nodes[pc].outputs|)
    ensures forall b :: b in env && b in heap ==> b in heap' && heap'[b] == heap[b]
    ensures forall j :: 0 <= j < |outs| && g.nodes[pc].outputs[j].Some? && g.nodes[pc].outputs[j].value < |root| ==>
              var r := root[g.nodes[pc].outputs[j].value]; r in heap' && |heap'[r]| == |outs[j]|
  {
    var outputs := g.nodes[pc].outputs;
    AfterStep(g, ks, env, env', outs, pc);
    assert outputs[..|outputs|] == outputs;
    forall j | 0 <= j < |outs| && outputs[j].Some? && outputs[j].value < |root|
      ensures var r := root[outputs[j].value]; r in heap' && |heap'[r]| == |outs[j]|
    {
      if root[outputs[j].value] != outputs[j].value {
        RootAvailable(g, ks, root, values, heap, env, env', gone, outs, pc, j);
      }
    }
  }

  /** The kernel of step pc computes the reference results into the right buffers. */
  lemma KernelWrites(g: Graph, ks: KernelSet, root: seq<nat>, values: seq<MLValue>, heap: Heap, env: Env, env': Env,
                     gone: set<nat>, values': seq<MLValue>, heap': Heap, outs: seq<Data>, pc: nat)
    requires StepEnv(g, ks, env, env', outs, pc) && StepPlanned(g, root, pc) && ShapesSound(g, env')
    requires Matches(g, root, values, heap, env, gone, pc)
    requires Placed(g, root, values, heap, values', heap', outs, pc, |g.nodes[pc].outputs|)
    ensures var from, to := RootArgs(root, Reads(g.nodes[pc])), RootArgs(root, g.nodes[pc].outputs);
            Written(heap', ks.run(pc, from, to, heap'), to, outs)
  {
    hide *;
    StepEnvFacts(g, ks, env, env', outs, pc);
    var node := g.nodes[pc];
    var from, to := RootArgs(root, Reads(node)), RootArgs(root, node.outputs);
    BeforeKernel(g, ks, root, values, heap, env, env', gone, values', heap', outs, pc);
    LooksTheSame(g, root, values, heap, env, gone, pc);
    Permitted(g, root, values, heap, env, gone, pc);
    SourcesKept(g, root, values, heap, env, gone, heap', pc);
    RunHonoured(g, ks, pc, from, to, heap', outs);
  }

  lemma StepEnvFacts(g: Graph, ks: KernelSet, env: Env, env': Env, outs: seq<Data>, pc: nat)
    requires StepEnv(g, ks, env, env', outs, pc)
    ensures Honours(g, ks) && pc < |g.nodes| && |outs| == |g.nodes[pc].outputs|
    ensures forall v :: Some(v) in Reads(g.nodes[pc]) ==> v in env
    ensures ks.compute(pc, Look(env, Reads(g.nodes[pc]))) == Some(outs)
  {
    ReadsDefined(g, pc);
  }

  /** The contract of a kernel, put to use. */
  lemma RunHonoured(g: Graph, ks: KernelSet, n: nat, from: seq<Option<nat>>, to: seq<Option<nat>>, heap: Heap,
                    outs: seq<Data>)
    requires Honours(g, ks) && n < |g.nodes| && |from| == |Reads(g.nodes[n])| && |to| == |g.nodes[n].outputs| == |outs|
    requires SharingPermitted(g.nodes[n], from, to) && (forall b :: Some(b) in from ==> b in heap)
    requires ks.compute(n, Look(heap, from)) == Some(outs)
    requires forall j :: 0 <= j < |to| && to[j].Some? ==> to[j].value in heap && |heap[to[j].value]| == |outs[j]|
    ensures Written(heap, ks.run(n, from, to, heap), to, outs)
  {
    hide SharingPermitted, Written;
    assert RunHonours(g, ks, n, from, to, heap);
    assert forall p :: 0 <= p < |from| && from[p].Some? ==> Some(from[p].value) in from;
  }

  /** Allocating outputs leaves everything the kernel reads alone. */
  lemma SourcesKept(g: Graph, root: seq<nat>, values: seq<MLValue>, heap: Heap, env: Env, gone: set<nat>, heap': Heap,
                    pc: nat)
    requires Matches(g, root, values, heap, env, gone, pc) && pc < |g.nodes|
    requires forall b :: b in env && b in heap ==> b in heap' && heap'[b] == heap[b]
    ensures var from := RootArgs(root, Reads(g.nodes[pc]));
            && (forall b :: Some(b) in from ==> b in heap && b in heap')
            && Look(heap', from) == Look(heap, from)
  {
    hide *;
    var args := Reads(g.nodes[pc]);
    var from := RootArgs(root, args);
    RootsDefined(g, root, values, heap, env, gone, pc);
    forall p | 0 <= p < |args| && args[p].Some?
      ensures args[p].value < |root| && root[args[p].value] in heap && root[args[p].value] in heap'
      ensures heap'[root[args[p].value]] == heap[root[args[p].value]]
    {
      ReadsMatch(g, root, values, heap, env, gone, pc, p);
    }
  }

  lemma RootsDefined(g: Graph, root: seq<nat>, values: seq<MLValue>, heap: Heap, env: Env, gone: set<nat>, pc: nat)
    requires Matches(g, root, values, heap, env, gone, pc)
    ensures |values| == |root| == |g.values| && forall v :: v in env ==> v < |root| && root[v] in env
  {
  }

  /** What the kernel wrote, read back through the root map. */
  lemma WrittenFacts(g: Graph, root: seq<nat>, heap: Heap, heap': Heap, outs: seq<Data>, pc: nat)
    requires pc < |g.nodes| && |outs| == |g.nodes[pc].outputs|
             && Written(heap, heap', RootArgs(root, g.nodes[pc].outputs), outs)
    ensures heap'.Keys == heap.Keys
    ensures forall j :: (0 <= j < |outs| && g.nodes[pc].outputs[j].Some? && g.nodes[pc].outputs[j].value < |root|
                         && root[g.nodes[pc].outputs[j].value] in heap') ==>
              heap'[root[g.nodes[pc].outputs[j].value]] == outs[j]
    ensures forall b :: b in heap && !WrittenBy(g, root, pc, b) ==> heap'[b] == heap[b]
  {
    var outputs := g.nodes[pc].outputs;
    var to := RootArgs(root, outputs);
    forall j | 0 <= j < |outs| && outputs[j].Some? && outputs[j].value < |root| && root[outputs[j].value] in heap'
      ensures heap'[root[outputs[j].value]] == outs[j]
    {
      assert to[j] == Some(root[outputs[j].value]);
    }
  }

  /** Some output of step pc goes into buffer b. */
  ghost predicate WrittenBy(g: Graph, root: seq<nat>, pc: nat, b: nat)
    requires pc < |g.nodes|
  {
    exists j :: 0 <= j < |g.nodes[pc].outputs| && g.nodes[pc].outputs[j].Some? && g.nodes[pc].outputs[j].value < |root|
                && root[g.nodes[pc].outputs[j].value] == b
  }

  /** A value produced earlier and still needed is untouched by step pc. */
  lemma OldStays(g: Graph, ks: KernelSet, root: seq<nat>, values: seq<MLValue>, heap: Heap, env: Env, env': Env,
                 gone: set<nat>, values': seq<MLValue>, heap': Heap, heap'': Heap, outs: seq<Data>, pc: nat, v: nat)
    requires StepEnv(g, ks, env, env', outs, pc) && StepPlanned(g, root, pc) && ShapesSound(g, env')
    requires Matches(g, root, values, heap, env, gone, pc)
    requires Placed(g, root, values, heap, values', heap', outs, pc, |g.nodes[pc].outputs|)
    requires Written(heap', heap'', RootArgs(root, g.nodes[pc].outputs), outs)
    requires v in env && !Dead(g, v, pc + 1)
    ensures v < |values'| == |root| && values'[v].Allocated? && root[v] in heap'' && heap''[root[v]] == env[v]
  {
    hide StepEnv, StepPlanned, Matches, Placed, Written, ShapesSound, Dead, LiveMatch, RootArgs;
    StepEnvFacts(g, ks, env, env', outs, pc);
    OldBefore(g, root, values, heap, env, gone, values', heap', outs, pc, v);
    BeforeKernel(g, ks, root, values, heap, env, env', gone, values', heap', outs, pc);
    WrittenFacts(g, root, heap', heap'', outs, pc);
    var outputs := g.nodes[pc].outputs;
    if WrittenBy(g, root, pc, root[v]) {
      var j :| 0 <= j < |outputs| && outputs[j].Some? && outputs[j].value < |root| && root[outputs[j].value] == root[v];
      OverwriteHarmless(g, ks, root, values, heap, env, env', outs, pc, j, v);
    }
  }

  /** Where such a value is before the kernel runs. */
  lemma OldBefore(g: Graph, root: seq<nat>, values: seq<MLValue>, heap: Heap, env: Env, gone: set<nat>,
                  values': seq<MLValue>, heap': Heap, outs: seq<Data>, pc: nat, v: nat)
    requires Matches(g, root, values, heap, env, gone, pc) && pc < |g.nodes| && v in env && !Dead(g, v, pc + 1)
    requires Placed(g, root, values, heap, values', heap', outs, pc, |g.nodes[pc].outputs|)
    ensures LiveMatch(g, root, values, heap, env, pc) && v < |root| == |values'| && values'[v].Allocated?
    ensures root[v] in env && root[v] in heap && heap[root[v]] == env[v]
  {
    hide Matches, EnvAt, SlotsMatch, RootsKept, GoneDead, OwnsBuffer;
    MatchesLive(g, root, values, heap, env, gone, pc);
    assert v in Events(g, pc);
  }

  lemma MatchesLive(g: Graph, root: seq<nat>, values: seq<MLValue>, heap: Heap, env: Env, gone: set<nat>, pc: nat)
    ensures Matches(g, root, values, heap, env, gone, pc) <==>
            && EnvAt(g, env, pc) && LiveMatch(g, root, values, heap, env, pc) && SizesMatch(root, env)
            && SlotsMatch(root, values, env) && RootsKept(root, values, heap, env, gone) && GoneDead(g, root, gone, pc)
  {
    hide EnvAt, LiveMatch, SizesMatch, SlotsMatch, RootsKept, GoneDead;
  }

  /** After the kernel every value that is still needed is where the reference run has it. */
  lemma LiveAfter(g: Graph, ks: KernelSet, root: seq<nat>, values: seq<MLValue>, heap: Heap, env: Env, env': Env,
                  gone: set<nat>, values': seq<MLValue>, heap': Heap, heap'': Heap, outs: seq<Data>, pc: nat)
    requires StepEnv(g, ks, env, env', outs, pc) && StepPlanned(g, root, pc) && ShapesSound(g, env')
    requires Matches(g, root, values, heap, env, gone, pc)
    requires Placed(g, root, values, heap, values', heap', outs, pc, |g.nodes[pc].outputs|)
    requires Written(heap', heap'', RootArgs(root, g.nodes[pc].outputs), outs)
    ensures LiveMatch(g, root, values', heap'', env', pc + 1)
  {
    hide StepEnv, StepPlanned, Matches, Written, ShapesSound, Dead, WrittenBy, Placed, RootArgs;
    StepEnvFacts(g, ks, env, env', outs, pc);
    PlacedLength(g, root, values, heap, values', heap', outs, pc, |g.nodes[pc].outputs|);
    var outputs := g.nodes[pc].outputs;
    AfterStep(g, ks, env, env', outs, pc);
    RootsDefined(g, root, values, heap, env, gone, pc);
    BeforeKernel(g, ks, root, values, heap, env, env', gone, values', heap', outs, pc);
    WrittenFacts(g, root, heap', heap'', outs, pc);
    forall v | v in env' && v < |values'| && !Dead(g, v, pc + 1)
      ensures values'[v].Allocated? && root[v] in heap'' && heap''[root[v]] == env'[v]
    {
      if v in env {
        OldStays(g, ks, root, values, heap, env, env', gone, values', heap', heap'', outs, pc, v);
      } else {
        var j :| 0 <= j < |outputs| && outputs[j] == Some(v);
        PlacedTensor(g, root, values, heap, values', heap', outs, pc, v);
      }
    }
  }

  lemma PlacedLength(g: Graph, root: seq<nat>, values: seq<MLValue>, heap: Heap, values': seq<MLValue>, heap': Heap,
                     outs: seq<Data>, pc: nat, n: nat)
    requires Placed(g, root, values, heap, values', heap', outs, pc, n)
    ensures |values'| == |values| == |root|
  {
  }

  lemma PlacedTensor(g: Graph, root: seq<nat>, values: seq<MLValue>, heap: Heap, values': seq<MLValue>, heap': Heap,
                     outs: seq<Data>, pc: nat, v: nat)
    requires pc < |g.nodes| && Placed(g, root, values, heap, values', heap', outs, pc, |g.nodes[pc].outputs|)
    requires Some(v) in g.nodes[pc].outputs && v < |root|
    ensures values'[v].Allocated?
  {
    assert g.nodes[pc].outputs[..|g.nodes[pc].outputs|] == g.nodes[pc].outputs;
    assert IsOutput(g, pc, |g.nodes[pc].outputs|, v);
  }

  lemma SizesAfter(g: Graph, ks: KernelSet, root: seq<nat>, env: Env, env': Env, outs: seq<Data>, pc: nat)
    requires StepEnv(g, ks, env, env', outs, pc) && StepPlanned(g, root, pc) && ShapesSound(g, env')
             && SizesMatch(root, env)
    ensures SizesMatch(root, env')
  {
    var outputs := g.nodes[pc].outputs;
    AfterStep(g, ks, env, env', outs, pc);
    assert |root| == |g.values|;
    hide StepPlanned, StepEnv, ShapesSound;
    forall v | v in env'
      ensures v < |root| && root[v] in env' && |env'[v]| == |env'[root[v]]|
    {
      if v !in env {
        var j :| 0 <= j < |outputs| && outputs[j] == Some(v);
        if root[v] != v { SharedSize(g, ks, root, env, env', outs, pc, j); }
      }
    }
  }

  lemma RootSlot(g: Graph, root: seq<nat>, values: seq<MLValue>, heap: Heap, env: Env, gone: set<nat>,
                 values': seq<MLValue>, heap': Heap, outs: seq<Data>, pc: nat, r: nat)
    requires pc < |g.nodes| && Placed(g, root, values, heap, values', heap', outs, pc, |g.nodes[pc].outputs|)
    requires RootsKept(root, values, heap, env, gone)
    requires r < |root| && root[r] == r && r !in gone && (r in env || Some(r) in g.nodes[pc].outputs)
    ensures |values'| == |root| && values'[r].Allocated?
    ensures r in env ==> r in heap && |heap[r]| == |env[r]|
    ensures r !in env ==> WrittenBy(g, root, pc, r)
  {
    var outputs := g.nodes[pc].outputs;
    assert outputs[..|outputs|] == outputs;
    if r !in env {
      assert IsOutput(g, pc, |outputs|, r);
      var j :| 0 <= j < |outputs| && outputs[j] == Some(r);
    }
  }

  /** A root that has not been released stays allocated, with the right size. */
  lemma RootStays(g: Graph, ks: KernelSet, root: seq<nat>, values: seq<MLValue>, heap: Heap, env: Env, env': Env,
                  gone: set<nat>, values': seq<MLValue>, heap': Heap, heap'': Heap, outs: seq<Data>, pc: nat, r: nat)
    requires StepEnv(g, ks, env, env', outs, pc) && StepPlanned(g, root, pc) && ShapesSound(g, env')
    requires Matches(g, root, values, heap, env, gone, pc)
    requires Placed(g, root, values, heap, values', heap', outs, pc, |g.nodes[pc].outputs|)
    requires Written(heap', heap'', RootArgs(root, g.nodes[pc].outputs), outs)
    requires r in env' && r < |root| && root[r] == r && r !in gone
    ensures |values'| == |root| && values'[r].Allocated? && r in heap'' && |heap''[r]| == |env'[r]|
  {
    hide StepEnv, StepPlanned, Matches, Written, ShapesSound, Placed, LiveMatch, GoneDead, SlotsMatch, RootsKept, EnvAt;
    StepEnvFacts(g, ks, env, env', outs, pc);
    AfterStep(g, ks, env, env', outs, pc);
    MatchesLive(g, root, values, heap, env, gone, pc);
    BeforeKernel(g, ks, root, values, heap, env, env', gone, values', heap', outs, pc);
    SizesAfter(g, ks, root, env, env', outs, pc);
    WrittenFacts(g, root, heap', heap'', outs, pc);
    RootSlot(g, root, values, heap, env, gone, values', heap', outs, pc, r);
    if WrittenBy(g, root, pc, r) {
      var outputs := g.nodes[pc].outputs;
      var j :| 0 <= j < |outputs| && outputs[j].Some? && outputs[j].value < |root| && root[outputs[j].value] == r;
    }
  }

  lemma RootsAfter(g: Graph, ks: KernelSet, root: seq<nat>, values: seq<MLValue>, heap: Heap, env: Env, env': Env,
                   gone: set<nat>, values': seq<MLValue>, heap': Heap, heap'': Heap, outs: seq<Data>, pc: nat)
    requires StepEnv(g, ks, env, env', outs, pc) && StepPlanned(g, root, pc) && ShapesSound(g, env')
    requires Matches(g, root, values, heap, env, gone, pc)
    requires Placed(g, root, values, heap, values', heap', outs, pc, |g.nodes[pc].outputs|)
    requires Written(heap', heap'', RootArgs(root, g.nodes[pc].outputs), outs)
    ensures RootsKept(root, values', heap'', env', gone) && SlotsMatch(root, values', env')
  {
    hide StepEnv, StepPlanned, Matches, Written, ShapesSound;
    StepEnvFacts(g, ks, env, env', outs, pc);
    var outputs := g.nodes[pc].outputs;
    assert outputs[..|outputs|] == outputs;
    AfterStep(g, ks, env, env', outs, pc);
    MatchesLive(g, root, values, heap, env, gone, pc);
    hide LiveMatch, GoneDead, SizesMatch;
    forall r | r in env' && r < |root| && root[r] == r && r !in gone
      ensures values'[r].Allocated? && r in heap'' && |heap''[r]| == |env'[r]|
    {
      RootStays(g, ks, root, values, heap, env, env', gone, values', heap', heap'', outs, pc, r);
    }
    forall v | 0 <= v < |values'| && values'[v].Allocated?
      ensures v in env' && values'[v].buf == root[v]
    {
      if IsOutput(g, pc, |outputs|, v) { var j :| 0 <= j < |outputs| && outputs[j] == Some(v); }
    }
  }

  /** One step of the shared-buffer run follows one step of the reference run. */
  lemma StepMatches(g: Graph, ks: KernelSet, root: seq<nat>, values: seq<MLValue>, heap: Heap, env: Env, env': Env,
                    gone: set<nat>, values': seq<MLValue>, heap': Heap, outs: seq<Data>, pc: nat)
    requires StepEnv(g, ks, env, env', outs, pc) && StepPlanned(g, root, pc) && ShapesSound(g, env')
    requires Matches(g, root, values, heap, env, gone, pc)
    requires Placed(g, root, values, heap, values', heap', outs, pc, |g.nodes[pc].outputs|)
    ensures var heap'' := ks.run(pc, RootArgs(root, Reads(g.nodes[pc])), RootArgs(root, g.nodes[pc].outputs), heap');
            Matches(g, root, values', heap'', env', gone, pc + 1)
  {
    var heap'' := ks.run(pc, RootArgs(root, Reads(g.nodes[pc])), RootArgs(root, g.nodes[pc].outputs), heap');
    KernelWrites(g, ks, root, values, heap, env, env', gone, values', heap', outs, pc);
    LiveAfter(g, ks, root, values, heap, env, env', gone, values', heap', heap'', outs, pc);
    RootsAfter(g, ks, root, values, heap, env, env', gone, values', heap', heap'', outs, pc);
    SizesAfter(g, ks, root, env, env', outs, pc);
    GoneStaysDead(g, root, gone, pc);
    hide LiveMatch, RootsKept, SizesMatch, SlotsMatch, GoneDead, Placed, StepPlanned, WellFormed, Honours, ShapesSound;
  }

  lemma GoneStaysDead(g: Graph, root: seq<nat>, gone: set<nat>, pc: nat)
    requires GoneDead(g, root, gone, pc) && pc < |g.nodes|
    ensures GoneDead(g, root, gone, pc + 1)
  {
  }

  lemma ReleaseLive(g: Graph, root: seq<nat>, values: seq<MLValue>, heap: Heap, env: Env, pc: nat, r: nat)
    requires LiveMatch(g, root, values, heap, env, pc + 1) && pc < |g.nodes| && ReleaseSafe(g, root, pc, r)
    ensures r < |values| && LiveMatch(g, root, values[r := NotAllocated], heap - {r}, env, pc + 1)
  {
    hide Dead, Defined;
  }

  lemma ReleaseGone(g: Graph, root: seq<nat>, gone: set<nat>, pc: nat, r: nat)
    requires GoneDead(g, root, gone, pc + 1) && pc < |g.nodes| && ReleaseSafe(g, root, pc, r)
    ensures GoneDead(g, root, gone + {r}, pc + 1)
  {
    hide Dead, Defined;
  }

  lemma ReleaseSlots(root: seq<nat>, values: seq<MLValue>, heap: Heap, env: Env, gone: set<nat>, r: nat)
    requires SlotsMatch(root, values, env) && RootsKept(root, values, heap, env, gone) && r < |values|
    ensures SlotsMatch(root, values[r := NotAllocated], env)
    ensures RootsKept(root, values[r := NotAllocated], heap - {r}, env, gone + {r})
  {
  }

  /** Releasing a buffer the plan says is free keeps the match. */
  lemma ReleaseMatches(g: Graph, root: seq<nat>, values: seq<MLValue>, heap: Heap, env: Env, gone: set<nat>, pc: nat,
                       r: nat)
    requires Matches(g, root, values, heap, env, gone, pc + 1) && pc < |g.nodes| && ReleaseSafe(g, root, pc, r)
    ensures Matches(g, root, values[r := NotAllocated], heap - {r}, env, gone + {r}, pc + 1)
  {
    hide *;
    MatchesLive(g, root, values, heap, env, gone, pc + 1);
    ReleaseLive(g, root, values, heap, env, pc, r);
    ReleaseGone(g, root, gone, pc, r);
    ReleaseSlots(root, values, heap, env, gone, r);
    MatchesLive(g, root, values[r := NotAllocated], heap - {r}, env, gone + {r}, pc + 1);
  }
}
