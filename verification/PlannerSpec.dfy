/**
 The static planner as a function of the graph: which buffer each output is given, decided one output at a time from
 the use counts, the buffer map and the freelist at that point.
 */
module PlannerSpec {
  import opened Wrappers
  import opened Counting
  import opened GraphModel
  import opened PlanSafety
  import opened PlannerInvariant

  // ----- which pairs serve an output

  /** The k-th alias pair names output number n and a present input. */
  predicate AliasHit(node: Node, k: int, n: nat)
    requires node.kernelDef.Some? && 0 <= k < |node.kernelDef.value.alias|
  {
    var pair := node.kernelDef.value.alias[k];
    pair.1 == n && InputAt(node, pair.0).Some?
  }

  /** The k-th in-place pair names output number n and a present, last-used input of the same size. */
  predicate InplaceHit(g: Graph, useCount: seq<int>, buffer: seq<nat>, node: Node, k: int, n: nat)
    requires node.kernelDef.Some? && 0 <= k < |node.kernelDef.value.inplace|
  {
    var pair := node.kernelDef.value.inplace[k];
    && pair.1 == n && n < |node.outputs| && node.outputs[n].Some? && InputAt(node, pair.0).Some?
    && var x, o := InputAt(node, pair.0).value, node.outputs[n].value;
    && x < |buffer| && buffer[x] < |useCount| && useCount[buffer[x]] == 1
    && x < |g.values| && o < |g.values| && SameSize(g, x, o)
  }

  /** No alias pair serves output number n. */
  ghost predicate NoAlias(node: Node, n: nat)
    requires node.kernelDef.Some?
  {
    forall k :: 0 <= k < |node.kernelDef.value.alias| ==> !AliasHit(node, k, n)
  }

  /** Input x comes from the first alias pair that serves output number n. */
  ghost predicate FirstAlias(node: Node, n: nat, k: int, x: nat)
    requires node.kernelDef.Some?
  {
    && 0 <= k < |node.kernelDef.value.alias| && AliasHit(node, k, n)
    && InputAt(node, node.kernelDef.value.alias[k].0) == Some(x)
    && forall m :: 0 <= m < k ==> !AliasHit(node, m, n)
  }

  /** Input x comes from the first in-place pair that serves output number n. */
  ghost predicate FirstInplace(g: Graph, useCount: seq<int>, buffer: seq<nat>, node: Node, n: nat, k: int, x: nat)
    requires node.kernelDef.Some?
  {
    && 0 <= k < |node.kernelDef.value.inplace| && InplaceHit(g, useCount, buffer, node, k, n)
    && InputAt(node, node.kernelDef.value.inplace[k].0) == Some(x)
    && forall m :: 0 <= m < k ==> !InplaceHit(g, useCount, buffer, node, m, n)
  }

  /** An aliased input, or failing that an input at its last use that may be overwritten. */
  ghost predicate Chosen(g: Graph, useCount: seq<int>, buffer: seq<nat>, node: Node, n: nat, x: nat)
    requires node.kernelDef.Some?
  {
    || (exists k :: FirstAlias(node, n, k, x))
    || (NoAlias(node, n) && exists k :: FirstInplace(g, useCount, buffer, node, n, k, x))
  }

  function FindAlias(node: Node, n: nat, k: nat): (r: Option<nat>)
    requires node.kernelDef.Some? && k <= |node.kernelDef.value.alias|
    ensures r.Some? ==> k <= r.value < |node.kernelDef.value.alias| && AliasHit(node, r.value, n)
    ensures r.Some? ==> forall m :: k <= m < r.value ==> !AliasHit(node, m, n)
    ensures r.None? ==> forall m :: k <= m < |node.kernelDef.value.alias| ==> !AliasHit(node, m, n)
    decreases |node.kernelDef.value.alias| - k
  {
    if k == |node.kernelDef.value.alias| then None
    else if AliasHit(node, k, n) then Some(k)
    else FindAlias(node, n, k + 1)
  }

  function FindInplace(g: Graph, useCount: seq<int>, buffer: seq<nat>, node: Node, n: nat, k: nat): (r: Option<nat>)
    requires node.kernelDef.Some? && k <= |node.kernelDef.value.inplace|
    ensures r.Some? ==> k <= r.value < |node.kernelDef.value.inplace|
                        && InplaceHit(g, useCount, buffer, node, r.value, n)
    ensures r.Some? ==> forall m :: k <= m < r.value ==> !InplaceHit(g, useCount, buffer, node, m, n)
    ensures r.None? ==> forall m :: k <= m < |node.kernelDef.value.inplace| ==>
                          !InplaceHit(g, useCount, buffer, node, m, n)
    decreases |node.kernelDef.value.inplace| - k
  {
    if k == |node.kernelDef.value.inplace| then None
    else if InplaceHit(g, useCount, buffer, node, k, n) then Some(k)
    else FindInplace(g, useCount, buffer, node, n, k + 1)
  }

  /** A free buffer that can hold o. */
  predicate Fits(g: Graph, r: nat, o: nat)
    requires r < |g.values| && o < |g.values|
  {
    g.values[r].location == g.values[o].location && SameSize(g, r, o)
  }

  /** Entry k is the most recently freed buffer that can hold o. */
  ghost predicate FirstFit(g: Graph, entries: seq<FreeBufferInfo>, k: nat, o: nat)
    requires k < |entries| && o < |g.values|
  {
    && entries[k].mlValue < |g.values| && Fits(g, entries[k].mlValue, o)
    && forall i :: 0 <= i < k && entries[i].mlValue < |g.values| ==> !Fits(g, entries[i].mlValue, o)
  }

  function FindFit(g: Graph, entries: seq<FreeBufferInfo>, o: nat, k: nat): (r: Option<nat>)
    requires o < |g.values| && k <= |entries| && forall i :: 0 <= i < |entries| ==> entries[i].mlValue < |g.values|
    ensures r.Some? ==> k <= r.value < |entries| && Fits(g, entries[r.value].mlValue, o)
    ensures r.Some? ==> forall i :: k <= i < r.value ==> !Fits(g, entries[i].mlValue, o)
    ensures r.None? ==> forall i :: k <= i < |entries| ==> !Fits(g, entries[i].mlValue, o)
    decreases |entries| - k
  {
    if k == |entries| then None
    else if Fits(g, entries[k].mlValue, o) then Some(k)
    else FindFit(g, entries, o, k + 1)
  }

  /** How many present outputs precede position j: the number the planner looks pairs up by. */
  function ArgNumber(node: Node, j: nat): nat
    requires j <= |node.outputs|
  {
    |Existing(node.outputs[..j])|
  }

  lemma {:induction false} ExistingShorter(args: seq<Option<nat>>)
    ensures |Existing(args)| <= |args|
    ensures |Existing(args)| == |args| <==> forall i :: 0 <= i < |args| ==> args[i].Some?
  {
    if args != [] { ExistingShorter(args[1..]); }
  }

  lemma ArgNumberStep(node: Node, j: nat)
    requires j < |node.outputs|
    ensures ArgNumber(node, j + 1) == ArgNumber(node, j) + if node.outputs[j].Some? then 1 else 0
    ensures ArgNumber(node, j) <= j
  {
    assert node.outputs[..j + 1] == node.outputs[..j] + [node.outputs[j]];
    ExistingConcat(node.outputs[..j], [node.outputs[j]]);
    ExistingShorter(node.outputs[..j]);
  }

  /** Pairs are looked up under the right output position exactly when missing outputs trail. */
  lemma ArgNumberIsPosition(node: Node)
    ensures MissingOutputsTrail(node) <==>
            forall j :: 0 <= j < |node.outputs| && node.outputs[j].Some? ==> ArgNumber(node, j) == j
  {
    forall j | 0 <= j < |node.outputs|
      ensures ArgNumber(node, j) == j <==> forall i :: 0 <= i < j ==> node.outputs[i].Some?
    {
      ExistingShorter(node.outputs[..j]);
      assert forall i :: 0 <= i < j ==> node.outputs[..j][i] == node.outputs[i];
    }
  }

  // ----- one decision

  datatype PlanState = PlanState(useCount: seq<int>, buffer: seq<nat>, freelist: seq<FreeBufferInfo>,
                                 alloc: seq<AllocPlan>)

  ghost predicate Sized(g: Graph, s: PlanState) {
    && |s.useCount| == |s.buffer| == |s.alloc| == |g.values|
    && (forall v :: 0 <= v < |s.buffer| ==> s.buffer[v] < |g.values|)
    && (forall i :: 0 <= i < |s.freelist| ==> s.freelist[i].mlValue < |g.values|)
  }

  /** A node of the graph that has a kernel and names only values of the graph. */
  ghost predicate Plannable(g: Graph, node: Node) {
    NodeInRange(g, node) && node.kernelDef.Some?
  }

  /** How an output gets its buffer. */
  datatype Decision =
    | Missing                     // optional output that is not there
    | Own(kind: AllocKind)
    | TakeAlias(input: nat)       // the buffer of an input it is declared to alias
    | TakeInplace(input: nat)     // the buffer of an input at its last use
    | TakeFree(entry: nat)        // an entry of the freelist

  function Decide(g: Graph, parallel: bool, s: PlanState, node: Node, j: nat): Decision
    requires Sized(g, s) && Plannable(g, node) && j < |node.outputs|
  {
    if node.outputs[j].None? then Missing
    else
      var o, n := node.outputs[j].value, ArgNumber(node, j);
      if o in g.outputs then Own(AllocateOutput)
      else if !g.values[o].isTensor then Own(Allocate)
      else
        var a := FindAlias(node, n, 0);
        if a.Some? then TakeAlias(InputAt(node, node.kernelDef.value.alias[a.value].0).value)
        else
          var i := FindInplace(g, s.useCount, s.buffer, node, n, 0);
          if i.Some? then TakeInplace(InputAt(node, node.kernelDef.value.inplace[i.value].0).value)
          else
            var k := if parallel then None else FindFit(g, s.freelist, o, 0);
            if k.Some? then TakeFree(k.value) else Own(Allocate)
  }

  /** The new value joins the buffer underlying an older one, which takes over its uses. */
  function Join(g: Graph, s: PlanState, older: nat, o: nat): (r: PlanState)
    requires Sized(g, s) && older < |g.values| && o < |g.values|
    ensures Sized(g, r)
  {
    var b := s.buffer[older];
    PlanState(s.useCount[b := s.useCount[b] + s.useCount[o]], s.buffer[o := b], s.freelist,
              s.alloc[o := AllocPlan(Reuse, b)])
  }

  function KeepOwn(g: Graph, s: PlanState, o: nat, kind: AllocKind): (r: PlanState)
    requires Sized(g, s) && o < |g.values|
    ensures Sized(g, r)
  {
    s.(alloc := s.alloc[o := s.alloc[o].(kind := kind)])
  }

  /** The state after the output at position j has been placed. */
  function PlaceOne(g: Graph, parallel: bool, s: PlanState, node: Node, j: nat): (r: PlanState)
    requires Sized(g, s) && Plannable(g, node) && j < |node.outputs|
    ensures Sized(g, r)
  {
    var d := Decide(g, parallel, s, node, j);
    match d
    case Missing => s
    case Own(kind) => KeepOwn(g, s, node.outputs[j].value, kind)
    case TakeAlias(x) => Join(g, s, x, node.outputs[j].value)
    case TakeInplace(x) => Join(g, s, x, node.outputs[j].value)
    case TakeFree(k) =>
      Join(g, s.(freelist := RemoveAt(s.freelist, k)), s.freelist[k].mlValue, node.outputs[j].value)
  }

  function PlaceTo(g: Graph, parallel: bool, s: PlanState, node: Node, j: nat): (r: PlanState)
    requires Sized(g, s) && Plannable(g, node) && j <= |node.outputs|
    ensures Sized(g, r)
  {
    if j == 0 then s else PlaceOne(g, parallel, PlaceTo(g, parallel, s, node, j - 1), node, j - 1)
  }

  // ----- one step

  /** One event of v is over; a buffer without further events becomes free. */
  function ReleaseValue(g: Graph, s: PlanState, v: nat, pc: nat): (r: PlanState)
    requires Sized(g, s) && v < |g.values|
    ensures Sized(g, r)
  {
    var b := s.buffer[v];
    var counts := s.useCount[b := s.useCount[b] - 1];
    s.(useCount := counts, freelist := if counts[b] == 0 then [FreeBufferInfo(b, pc)] + s.freelist else s.freelist)
  }

  function ReleaseTo(g: Graph, s: PlanState, args: seq<Option<nat>>, pc: nat, i: nat): (r: PlanState)
    requires Sized(g, s) && ArgsInRange(g, args) && i <= |args|
    ensures Sized(g, r)
  {
    if i == 0 then s
    else
      var r := ReleaseTo(g, s, args, pc, i - 1);
      if args[i - 1].Some? then ReleaseValue(g, r, args[i - 1].value, pc) else r
  }

  function ReleaseAll(g: Graph, s: PlanState, node: Node, pc: nat): (r: PlanState)
    requires Sized(g, s) && NodeInRange(g, node)
    ensures Sized(g, r)
  {
    var s1 := ReleaseTo(g, s, node.inputs, pc, |node.inputs|);
    var s2 := ReleaseTo(g, s1, node.implicits, pc, |node.implicits|);
    ReleaseTo(g, s2, node.outputs, pc, |node.outputs|)
  }

  function PlanNode(g: Graph, parallel: bool, s: PlanState, pc: nat): (r: PlanState)
    requires Sized(g, s) && pc < |g.nodes| && Plannable(g, g.nodes[pc])
    ensures Sized(g, r)
  {
    ReleaseAll(g, PlaceTo(g, parallel, s, g.nodes[pc], |g.nodes[pc].outputs|), g.nodes[pc], pc)
  }

  // ----- the whole order

  ghost predicate AllKernels(g: Graph) {
    forall pc :: 0 <= pc < |g.nodes| ==> g.nodes[pc].kernelDef.Some?
  }

  ghost predicate GapsTrail(g: Graph) {
    forall pc :: 0 <= pc < |g.nodes| ==> MissingOutputsTrail(g.nodes[pc])
  }

  /** Some node names v as an explicit input. */
  ghost predicate ReadByNode(g: Graph, v: nat) {
    exists pc :: 0 <= pc < |g.nodes| && Some(v) in g.nodes[pc].inputs
  }

  ghost function InitialKind(g: Graph, v: nat): AllocKind {
    if v in g.initializers && ReadByNode(g, v) then AllocateStatically
    else if v in g.inputs || v in g.outerScope then PreExisting
    else Allocate
  }

  /** Every use, definition and hold counted, every value in a buffer of its own. */
  ghost function InitialState(g: Graph): (r: PlanState)
    ensures Sized(g, r)
  {
    PlanState(seq(|g.values|, v requires 0 <= v < |g.values| => CountOf(Events(g, 0), v)),
              seq(|g.values|, v requires 0 <= v < |g.values| => v), [],
              seq(|g.values|, v requires 0 <= v < |g.values| => AllocPlan(InitialKind(g, v), 0)))
  }

  lemma NodePlannable(g: Graph, pc: nat)
    requires WellFormed(g) && AllKernels(g) && pc < |g.nodes|
    ensures Plannable(g, g.nodes[pc])
  {
    assert NodeOk(g, pc);
  }

  /** The planner's state before step pc. */
  ghost function StateAt(g: Graph, parallel: bool, pc: nat): (r: PlanState)
    requires WellFormed(g) && AllKernels(g) && pc <= |g.nodes|
    ensures Sized(g, r)
  {
    if pc == 0 then InitialState(g)
    else
      NodePlannable(g, pc - 1);
      PlanNode(g, parallel, StateAt(g, parallel, pc - 1), pc - 1)
  }

  /** The planner's state before the output at position j of step pc. */
  ghost function StateBefore(g: Graph, parallel: bool, pc: nat, j: nat): (r: PlanState)
    requires WellFormed(g) && AllKernels(g) && pc < |g.nodes| && j <= |g.nodes[pc].outputs|
    ensures Sized(g, r)
  {
    NodePlannable(g, pc);
    PlaceTo(g, parallel, StateAt(g, parallel, pc), g.nodes[pc], j)
  }

  ghost function DecisionAt(g: Graph, parallel: bool, pc: nat, j: nat): Decision
    requires WellFormed(g) && AllKernels(g) && pc < |g.nodes| && j < |g.nodes[pc].outputs|
  {
    NodePlannable(g, pc);
    Decide(g, parallel, StateBefore(g, parallel, pc, j), g.nodes[pc], j)
  }

  // ----- decisions that go wrong

  /** The buffer of one of the node's inputs that the output at position j takes over, if it does. */
  ghost function Taken(g: Graph, parallel: bool, pc: nat, j: nat): Option<nat>
    requires WellFormed(g) && AllKernels(g) && pc < |g.nodes| && j < |g.nodes[pc].outputs|
  {
    var d := DecisionAt(g, parallel, pc, j);
    if (d.TakeAlias? || d.TakeInplace?) && d.input < |g.values|
    then Some(StateBefore(g, parallel, pc, j).buffer[d.input]) else None
  }

  /** The k-th alias pair is about position j and names an input in buffer r. */
  predicate AliasNames(node: Node, buffer: seq<nat>, k: nat, j: nat, r: nat)
    requires node.kernelDef.Some?
  {
    && k < |node.kernelDef.value.alias| && AliasHit(node, k, j)
    && var x := InputAt(node, node.kernelDef.value.alias[k].0).value;
    && x < |buffer| && buffer[x] == r
  }

  /** Position j is declared to alias an input in buffer r. */
  ghost predicate AliasOffered(node: Node, buffer: seq<nat>, j: nat, r: nat)
    requires node.kernelDef.Some?
  {
    exists k: nat :: AliasNames(node, buffer, k, j, r)
  }

  /** The k-th in-place pair is about position j and names an input of the same size at its last use, in buffer r. */
  predicate InplaceNames(g: Graph, s: PlanState, node: Node, k: nat, j: nat, r: nat)
    requires node.kernelDef.Some?
  {
    && k < |node.kernelDef.value.inplace| && InplaceHit(g, s.useCount, s.buffer, node, k, j)
    && s.buffer[InputAt(node, node.kernelDef.value.inplace[k].0).value] == r
  }

  ghost predicate InplaceOffered(g: Graph, s: PlanState, node: Node, j: nat, r: nat)
    requires node.kernelDef.Some?
  {
    exists k: nat :: InplaceNames(g, s, node, k, j, r)
  }

  /** The output takes a buffer that no pair of its own position offers it: the lookup went by a wrong number. */
  ghost predicate Misdirected(g: Graph, parallel: bool, pc: nat, j: nat)
    requires WellFormed(g) && AllKernels(g) && pc < |g.nodes| && j < |g.nodes[pc].outputs|
  {
    var r, s, node := Taken(g, parallel, pc, j), StateBefore(g, parallel, pc, j), g.nodes[pc];
    r.Some? && !AliasOffered(node, s.buffer, j, r.value) && !InplaceOffered(g, s, node, j, r.value)
  }

  /** Two outputs take one buffer, and not both are declared to alias what is in it. */
  ghost predicate Clash(g: Graph, parallel: bool, pc: nat, i: nat, j: nat)
    requires WellFormed(g) && AllKernels(g) && pc < |g.nodes| && i < j < |g.nodes[pc].outputs|
  {
    var r, node := Taken(g, parallel, pc, i), g.nodes[pc];
    && r.Some? && Taken(g, parallel, pc, j) == r
    && !(AliasOffered(node, StateBefore(g, parallel, pc, i).buffer, i, r.value)
         && AliasOffered(node, StateBefore(g, parallel, pc, j).buffer, j, r.value))
  }

  /** A tensor output is to live in something that is no tensor. */
  ghost predicate AliasesNonTensor(g: Graph, parallel: bool, pc: nat, j: nat)
    requires WellFormed(g) && AllKernels(g) && pc < |g.nodes| && j < |g.nodes[pc].outputs|
  {
    var d := DecisionAt(g, parallel, pc, j);
    d.TakeAlias? && d.input < |g.values| && !g.values[d.input].isTensor
  }

  ghost predicate CleanStep(g: Graph, parallel: bool, pc: nat)
    requires WellFormed(g) && AllKernels(g) && pc < |g.nodes|
  {
    && (forall i: nat, j: nat :: i < j < |g.nodes[pc].outputs| ==> !Clash(g, parallel, pc, i, j))
    && (forall j: nat :: j < |g.nodes[pc].outputs| ==>
          !Misdirected(g, parallel, pc, j) && !AliasesNonTensor(g, parallel, pc, j))
  }

  /** No decision of the planner goes wrong. */
  ghost predicate Clean(g: Graph, parallel: bool)
    requires WellFormed(g) && AllKernels(g)
  {
    forall pc: nat :: pc < |g.nodes| ==> CleanStep(g, parallel, pc)
  }
}
