/** Option, as used for optional node arguments, absent shapes and null pointers. */
module Wrappers {
  datatype Option<+T> = None | Some(value: T)
}

/** How often a number occurs in a list. */
module Counting {
  function CountOf(s: seq<nat>, v: nat): nat {
    if s == [] then 0 else (if s[0] == v then 1 else 0) + CountOf(s[1..], v)
  }

  lemma {:induction false} CountOfConcat(a: seq<nat>, b: seq<nat>, v: nat)
    ensures CountOf(a + b, v) == CountOf(a, v) + CountOf(b, v)
  {
    if a == [] {
      assert a + b == b;
    } else {
      assert (a + b)[1..] == a[1..] + b;
      CountOfConcat(a[1..], b, v);
    }
  }

  lemma {:induction false} CountOfZero(s: seq<nat>, v: nat)
    ensures CountOf(s, v) == 0 <==> v !in s
  {
    if s != [] { CountOfZero(s[1..], v); }
  }

  lemma CountOfNothing()
    ensures forall v :: CountOf([], v) == 0
  {
  }

  lemma CountOfOne(u: nat)
    ensures forall v :: CountOf([u], v) == if v == u then 1 else 0
  {
    assert [u][1..] == [];
  }
}

/**
 The graph as the static planner and the executors see it: nodes in topological
 order, values numbered from zero, optional arguments that may be missing.
 */
module GraphModel {
  import opened Wrappers

  /** One dimension of an inferred shape: a number, a named unknown, or nothing at all. */
  datatype Dim = Value(n: int) | Param(name: string) | NoDim

  datatype ValueInfo = ValueInfo(isTensor: bool, shape: Option<seq<Dim>>, elementSize: nat, location: nat)

  /** Pairs (input position, output position); positions may be out of range. */
  datatype KernelDef = KernelDef(alias: seq<(int, int)>, inplace: seq<(int, int)>)

  datatype Node = Node(inputs: seq<Option<nat>>, implicits: seq<Option<nat>>, outputs: seq<Option<nat>>,
                       kernelDef: Option<KernelDef>)

  datatype Graph = Graph(values: seq<ValueInfo>, inputs: seq<nat>, outerScope: seq<nat>, initializers: seq<nat>,
                         nodes: seq<Node>, outputs: seq<nat>)

  /** The arguments that are present, in order. */
  function Existing(args: seq<Option<nat>>): (r: seq<nat>)
    ensures forall v :: v in r <==> Some(v) in args
  {
    if args == [] then []
    else if args[0].Some? then [args[0].value] + Existing(args[1..])
    else Existing(args[1..])
  }

  /** Everything a kernel reads: explicit inputs first, then implicit ones. */
  function Reads(node: Node): seq<Option<nat>> {
    node.inputs + node.implicits
  }

  /** The use-count events of one step, in the order the planner releases them. */
  function Touched(node: Node): seq<nat> {
    Existing(node.inputs) + Existing(node.implicits) + Existing(node.outputs)
  }

  predicate IsSource(g: Graph, v: nat) {
    v in g.inputs || v in g.outerScope || v in g.initializers
  }

  /** The values among the first n that come from outside the graph, once each. */
  function SourceList(g: Graph, n: nat): (r: seq<nat>)
    ensures forall v: nat :: v in r <==> v < n && IsSource(g, v)
  {
    if n == 0 then []
    else if IsSource(g, n - 1) then SourceList(g, n - 1) + [n - 1]
    else SourceList(g, n - 1)
  }

  function Sources(g: Graph): set<nat> {
    set v: nat | v < |g.values| && IsSource(g, v)
  }

  /** The caller's hold on graph inputs, outer-scope values, weights and graph outputs. */
  function Holds(g: Graph): seq<nat> {
    SourceList(g, |g.values|) + g.outputs
  }

  /** All events that remain when step pc is about to start. */
  function Events(g: Graph, pc: nat): seq<nat>
    requires pc <= |g.nodes|
    decreases |g.nodes| - pc
  {
    if pc == |g.nodes| then Holds(g) else Touched(g.nodes[pc]) + Events(g, pc + 1)
  }

  function Elements(s: seq<nat>): set<nat> {
    set v | v in s
  }

  /** The values that have been produced when step pc is about to start. */
  function Defined(g: Graph, pc: nat): set<nat>
    requires pc <= |g.nodes|
  {
    if pc == 0 then Sources(g)
    else Defined(g, pc - 1) + Elements(Existing(g.nodes[pc - 1].outputs))
  }

  /** A value is dead at step pc when no later step touches it and no caller holds it. */
  ghost predicate Dead(g: Graph, v: nat, pc: nat)
    requires pc <= |g.nodes|
  {
    v !in Events(g, pc)
  }

  ghost predicate NoRepeats(s: seq<nat>) {
    forall i, j :: 0 <= i < j < |s| ==> s[i] != s[j]
  }

  ghost predicate ArgsInRange(g: Graph, args: seq<Option<nat>>) {
    forall i :: 0 <= i < |args| && args[i].Some? ==> args[i].value < |g.values|
  }

  /** One node reads only earlier values and defines its outputs for the first time. */
  ghost predicate NodeOk(g: Graph, pc: nat)
    requires pc < |g.nodes|
  {
    var node := g.nodes[pc];
    && ArgsInRange(g, node.inputs) && ArgsInRange(g, node.implicits) && ArgsInRange(g, node.outputs)
    && (forall v :: Some(v) in node.inputs || Some(v) in node.implicits ==> v in Defined(g, pc))
    && NoRepeats(Existing(node.outputs))
    && (forall v :: v in Existing(node.outputs) ==> v !in Defined(g, pc))
  }

  /** A single-assignment graph, its nodes in topological order, every numbered value defined. */
  ghost predicate WellFormed(g: Graph) {
    && (forall v: nat :: IsSource(g, v) ==> v < |g.values|)
    && (forall pc :: 0 <= pc < |g.nodes| ==> NodeOk(g, pc))
    && (forall i :: 0 <= i < |g.outputs| ==> g.outputs[i] < |g.values|)
    && (forall v: nat :: v < |g.values| ==> v in Defined(g, |g.nodes|))
  }

  /** No present output follows a missing one. */
  ghost predicate MissingOutputsTrail(node: Node) {
    forall i, j :: 0 <= i < j < |node.outputs| && node.outputs[i].None? ==> node.outputs[j].None?
  }

  /** The input at position i, when that is a position and the argument is present. */
  function InputAt(node: Node, i: int): Option<nat> {
    if 0 <= i < |node.inputs| then node.inputs[i] else None
  }

  /**
   What makes sharing safe, said of the declarations alone: a kernel exists, its missing outputs trail, aliased inputs
   are tensors, and no input is offered in place to an output that precedes another output aliasing it.
   */
  ghost predicate SharingOk(g: Graph, node: Node) {
    && node.kernelDef.Some?
    && MissingOutputsTrail(node)
    && var def := node.kernelDef.value;
    && (forall k :: 0 <= k < |def.alias| ==>
          var x := InputAt(node, def.alias[k].0);
          x.Some? && x.value < |g.values| ==> g.values[x.value].isTensor)
    && (forall k, m :: 0 <= k < |def.alias| && 0 <= m < |def.inplace| ==>
          !(def.alias[k].0 == def.inplace[m].0 && def.inplace[m].1 < def.alias[k].1))
  }

  ghost predicate SharableGraph(g: Graph) {
    forall pc :: 0 <= pc < |g.nodes| ==> SharingOk(g, g.nodes[pc])
  }

  /** Inferred shape; only tensors have one. */
  function GetShape(g: Graph, v: nat): Option<seq<Dim>>
    requires v < |g.values|
  {
    if g.values[v].isTensor then g.values[v].shape else None
  }

  predicate SameDim(a: Dim, b: Dim) {
    a == b && !a.NoDim?
  }

  predicate SameShape(a: seq<Dim>, b: seq<Dim>) {
    |a| == |b| && forall i :: 0 <= i < |a| ==> SameDim(a[i], b[i])
  }

  /** Two values are known to need buffers of the same size. */
  predicate SameSize(g: Graph, u: nat, v: nat)
    requires u < |g.values| && v < |g.values|
  {
    && GetShape(g, u).Some? && GetShape(g, v).Some?
    && g.values[u].elementSize == g.values[v].elementSize
    && SameShape(GetShape(g, u).value, GetShape(g, v).value)
  }

  // ----- what the inferred shapes say about sizes

  /** What each dimension that has only a name turns out to be. */
  type Unknowns = string -> int

  function DimSize(d: Dim, rho: Unknowns): int
    requires !d.NoDim?
  {
    match d
    case Value(n) => n
    case Param(p) => rho(p)
  }

  /** Every dimension has a value or a name. */
  predicate Complete(dims: seq<Dim>) {
    forall i :: 0 <= i < |dims| ==> !dims[i].NoDim?
  }

  function NumElements(dims: seq<Dim>, rho: Unknowns): int
    requires Complete(dims)
  {
    if dims == [] then 1 else NumElements(dims[..|dims| - 1], rho) * DimSize(dims[|dims| - 1], rho)
  }

  /** Value v is a tensor whose inferred shape fixes its size but for the named dimensions. */
  predicate SizeKnown(g: Graph, v: nat) {
    v < |g.values| && g.values[v].isTensor && g.values[v].shape.Some? && Complete(g.values[v].shape.value)
  }

  function Bytes(g: Graph, v: nat, rho: Unknowns): int
    requires SizeKnown(g, v)
  {
    NumElements(g.values[v].shape.value, rho) * g.values[v].elementSize
  }

  /** Two dimensions are taken to be the same exactly if they are, whatever the named ones turn out to be. */
  lemma SameDimExactly(a: Dim, b: Dim)
    requires !a.NoDim? && !b.NoDim?
    ensures SameDim(a, b) <==> forall rho: Unknowns :: DimSize(a, rho) == DimSize(b, rho)
  {
    if (forall rho: Unknowns :: DimSize(a, rho) == DimSize(b, rho)) {
      var none: Unknowns, first: Unknowns := _ => 0, p => if Param(p) == a then 1 else 0;
      var second: Unknowns := p => if Param(p) == b then 1 else 0;
      assert DimSize(a, none) == DimSize(b, none);
      assert DimSize(a, first) == DimSize(b, first);
      assert DimSize(a, second) == DimSize(b, second);
    }
  }

  /**
   Two values are taken to be of the same size exactly if their sizes are known, their elements are equally big, and
   their dimensions agree one by one whatever the named ones turn out to be.
   */
  lemma SameSizeExactly(g: Graph, u: nat, v: nat)
    requires u < |g.values| && v < |g.values|
    ensures SameSize(g, u, v) <==>
              && SizeKnown(g, u) && SizeKnown(g, v) && g.values[u].elementSize == g.values[v].elementSize
              && |g.values[u].shape.value| == |g.values[v].shape.value|
              && forall i, rho: Unknowns :: 0 <= i < |g.values[u].shape.value| ==>
                   DimSize(g.values[u].shape.value[i], rho) == DimSize(g.values[v].shape.value[i], rho)
    ensures SizeKnown(g, u) && g.values[u] == g.values[v] ==> SameSize(g, u, v)
  {
    if SizeKnown(g, u) && SizeKnown(g, v) && |g.values[u].shape.value| == |g.values[v].shape.value| {
      forall i | 0 <= i < |g.values[u].shape.value|
        ensures SameDim(g.values[u].shape.value[i], g.values[v].shape.value[i]) <==>
                  forall rho: Unknowns ::
                    DimSize(g.values[u].shape.value[i], rho) == DimSize(g.values[v].shape.value[i], rho)
      {
        SameDimExactly(g.values[u].shape.value[i], g.values[v].shape.value[i]);
      }
      hide SameDim, DimSize;
    }
  }

  lemma {:induction false} SameShapeSameElements(a: seq<Dim>, b: seq<Dim>, rho: Unknowns)
    requires SameShape(a, b)
    ensures Complete(a) && Complete(b) && NumElements(a, rho) == NumElements(b, rho)
  {
    if a != [] {
      SameShapeSameElements(a[..|a| - 1], b[..|b| - 1], rho);
      assert SameDim(a[|a| - 1], b[|b| - 1]);
    }
  }

  /** Values taken to be of the same size need equally many bytes, whatever the named dimensions turn out to be. */
  lemma SameSizeSameBytes(g: Graph, u: nat, v: nat, rho: Unknowns)
    requires u < |g.values| && v < |g.values| && SameSize(g, u, v)
    ensures SizeKnown(g, u) && SizeKnown(g, v) && Bytes(g, u, rho) == Bytes(g, v, rho)
  {
    SameShapeSameElements(g.values[u].shape.value, g.values[v].shape.value, rho);
  }

  lemma {:induction false} DefinedGrows(g: Graph, p: nat, q: nat)
    requires p <= q <= |g.nodes|
    ensures Defined(g, p) <= Defined(g, q)
    decreases q
  {
    if p < q { DefinedGrows(g, p, q - 1); }
  }

  lemma {:induction false} DefinedInRange(g: Graph, pc: nat, v: nat)
    requires WellFormed(g) && pc <= |g.nodes| && v in Defined(g, pc)
    ensures v < |g.values|
  {
    if pc > 0 && v !in Defined(g, pc - 1) {
      var node := g.nodes[pc - 1];
      assert NodeOk(g, pc - 1);
      assert Some(v) in node.outputs;
      var i :| 0 <= i < |node.outputs| && node.outputs[i] == Some(v);
    } else if pc > 0 {
      DefinedInRange(g, pc - 1, v);
    }
  }

  lemma {:induction false} EventsInRange(g: Graph, pc: nat, v: nat)
    requires WellFormed(g) && pc <= |g.nodes| && v in Events(g, pc)
    ensures v < |g.values|
    decreases |g.nodes| - pc
  {
    if pc == |g.nodes| {
    } else if v in Touched(g.nodes[pc]) {
      TouchedInRange(g, pc, v);
    } else {
      EventsInRange(g, pc + 1, v);
    }
  }

  lemma OutputsInRange(g: Graph, pc: nat)
    requires WellFormed(g) && pc < |g.nodes|
    ensures ArgsInRange(g, g.nodes[pc].outputs)
  {
    assert NodeOk(g, pc);
  }

  lemma TouchedInRange(g: Graph, pc: nat, v: nat)
    requires WellFormed(g) && pc < |g.nodes| && v in Touched(g.nodes[pc])
    ensures v < |g.values| && v in Defined(g, pc + 1)
  {
    assert NodeOk(g, pc);
    DefinedInRange(g, pc + 1, v);
  }

  /** A value that is still alive stays alive at every earlier step. */
  lemma {:induction false} DeadStaysDead(g: Graph, v: nat, p: nat, q: nat)
    requires p <= q <= |g.nodes| && Dead(g, v, p)
    ensures Dead(g, v, q)
    decreases q - p
  {
    if p < q { DeadStaysDead(g, v, p + 1, q); }
  }

  /** Graph outputs and values from outside the graph are never dead. */
  lemma {:induction false} HeldIsNeverDead(g: Graph, v: nat, pc: nat)
    requires pc <= |g.nodes| && v in Holds(g)
    ensures !Dead(g, v, pc)
    decreases |g.nodes| - pc
  {
    if pc < |g.nodes| { HeldIsNeverDead(g, v, pc + 1); }
  }
}
