/**
 Buffers that the planner lets nodes share, under the parallel executor.  The planner keeps in-place sharing on in
 parallel mode, because in the topological order all other readers of the buffer come first; the executor keeps only
 ancestors first.  This says exactly when every node still reads what the sequential run would let it read.
 */
module ParallelSharing {
  import opened Wrappers
  import opened GraphModel
  import opened PlanSafety
  import opened PlannerInvariant
  import opened PlannerSpec
  import opened Placement
  import opened PlannerSteps
  import opened PlannerRun
  import opened ParallelExecutor
  import opened ParallelInvariant
  import opened ParallelTheorems
  import opened ParallelOrdering

  ghost predicate Planned(g: Graph) {
    WellFormed(g) && PlannerSpec.AllKernels(g)
  }

  /** The buffer v has in the plan made for parallel execution. */
  ghost function RootOf(g: Graph, v: nat): nat
    requires Planned(g) && v < |g.values|
  {
    StateAt(g, true, |g.nodes|).buffer[v]
  }

  /** Node n reads a value that lives in buffer r. */
  ghost predicate ReadsBuffer(g: Graph, n: nat, r: nat)
    requires Planned(g) && n < |g.nodes|
  {
    exists w: nat :: w < |g.values| && Some(w) in Reads(g.nodes[n]) && RootOf(g, w) == r
  }

  /** Output j of node n puts new contents into buffer r: its own one, or one it overwrites; an alias does not. */
  ghost predicate WritesAt(g: Graph, n: nat, j: nat, r: nat)
    requires Planned(g) && n < |g.nodes|
  {
    && j < |g.nodes[n].outputs| && g.nodes[n].outputs[j].Some? && g.nodes[n].outputs[j].value < |g.values|
    && RootOf(g, g.nodes[n].outputs[j].value) == r
    && (DecisionAt(g, true, n, j).Own? || DecisionAt(g, true, n, j).TakeInplace?)
  }

  ghost predicate Writes(g: Graph, n: nat, r: nat)
    requires Planned(g) && n < |g.nodes|
  {
    exists j: nat :: WritesAt(g, n, j, r)
  }

  /** Whose contents buffer r has when the sequential run comes to step n. */
  ghost function LastBefore(g: Graph, r: nat, n: nat): (m: Option<nat>)
    requires Planned(g) && n <= |g.nodes|
    ensures m.Some? ==> m.value < n && Writes(g, m.value, r)
    ensures forall k: nat :: k < n && Writes(g, k, r) ==> m.Some? && k <= m.value
  {
    if n == 0 then None else if Writes(g, n - 1, r) then Some(n - 1) else LastBefore(g, r, n - 1)
  }

  /** The step computes a node that writes buffer r. */
  ghost predicate IsWrite(g: Graph, a: Action, r: nat)
    requires Planned(g)
  {
    a.Compute? && a.n < |g.nodes| && Writes(g, a.n, r)
  }

  /** Whose contents buffer r has after these steps of the parallel run. */
  ghost function LastIn(g: Graph, acts: seq<Action>, r: nat): (m: Option<nat>)
    requires Planned(g)
    ensures m.None? ==> forall k :: 0 <= k < |acts| ==> !IsWrite(g, acts[k], r)
  {
    if acts == [] then None
    else
      var n := |acts| - 1;
      if IsWrite(g, acts[n], r) then Some(acts[n].n)
      else
        var before := LastIn(g, acts[..n], r);
        assert forall k :: 0 <= k < n ==> acts[..n][k] == acts[k];
        before
  }

  lemma {:induction false} LastInAt(g: Graph, acts: seq<Action>, r: nat) returns (k: nat)
    requires Planned(g) && LastIn(g, acts, r).Some?
    ensures k < |acts| && IsWrite(g, acts[k], r) && acts[k].n == LastIn(g, acts, r).value
    ensures forall i :: k < i < |acts| ==> !IsWrite(g, acts[i], r)
  {
    hide Planned, IsWrite;
    var n := |acts| - 1;
    if IsWrite(g, acts[n], r) {
      IsCompute(g, acts[n], r);
      k := n;
    } else {
      k := LastInAt(g, acts[..n], r);
      assert forall i :: 0 <= i < n ==> acts[..n][i] == acts[i];
    }
  }

  lemma IsCompute(g: Graph, a: Action, r: nat)
    requires Planned(g) && IsWrite(g, a, r)
    ensures a.Compute? && a.n < |g.nodes| && Writes(g, a.n, r)
  {
  }

  /** Node n reads value v, which node m produces. */
  ghost predicate Feeds(g: Graph, m: int, n: int, v: nat) {
    0 <= m < |g.nodes| && 0 <= n < |g.nodes| && Some(v) in g.nodes[m].outputs && Some(v) in Reads(g.nodes[n])
  }

  /** The dependencies of the graph: at least one edge from every producer to every reader, and only forward ones. */
  ghost predicate DependsAs(g: Graph, dag: Dag) {
    && |dag.succ| == |g.nodes| && ValidDag(dag) && ParallelOrdering.AllKernels(dag)
    && (forall m, k :: 0 <= m < |dag.succ| && 0 <= k < |dag.succ[m]| ==> m < dag.succ[m][k])
    && (forall m, n, v: nat :: Feeds(g, m, n, v) ==> n in dag.succ[m])
  }

  ghost function Order(g: Graph): (rank: seq<nat>)
    ensures |rank| == |g.nodes| && forall n :: 0 <= n < |rank| ==> rank[n] == n
  {
    seq(|g.nodes|, n requires 0 <= n < |g.nodes| => n)
  }

  lemma OrderRanks(g: Graph, dag: Dag)
    requires DependsAs(g, dag)
    ensures Ranked(dag, Order(g))
  {
  }

  // ----- the property and its condition

  /** In every execution every node finds in the buffers it reads what the sequential run would have there. */
  ghost predicate ReadsRight(g: Graph, dag: Dag, op: Op, init: State)
    requires Planned(g)
  {
    forall states: seq<State>, acts: seq<Action>, i: nat, r: nat ::
      Execution(dag, op, states, acts) && states[0] == init && i < |acts| && acts[i].Compute? && acts[i].n < |g.nodes|
      && ReadsBuffer(g, acts[i].n, r) ==>
        LastIn(g, acts[..i], r) == LastBefore(g, r, acts[i].n)
  }

  /** Whoever overwrites a buffer later in the order descends from all its earlier readers. */
  ghost predicate ReadersAreAncestors(g: Graph, dag: Dag)
    requires Planned(g)
  {
    forall a: nat, b: nat, r: nat :: a < b < |g.nodes| && ReadsBuffer(g, a, r) && Writes(g, b, r) ==>
      Ancestor(dag, a, b)
  }

  // ----- what the plan says about a buffer

  lemma RootFacts(g: Graph, pc: nat, v: nat)
    requires Planned(g) && pc <= |g.nodes| && v in Defined(g, pc)
    ensures v < |g.values| && RootOf(g, v) in Defined(g, pc)
    ensures IsSource(g, v) ==> RootOf(g, v) == v
  {
    DefinedInRange(g, pc, v);
    hide WellFormed, PlannerSpec.AllKernels, StateAt, Defined, StepsSafe, AllocOk, FreelistOk, CountsExact;
    AlwaysReady(false, g, true, pc);
    BufferStays(g, true, pc, |g.nodes|, v);
  }

  /** An output that takes over a buffer has read a value that lives there. */
  lemma TakenIsRead(g: Graph, n: nat, j: nat) returns (x: nat)
    requires Planned(g) && n < |g.nodes| && j < |g.nodes[n].outputs|
    requires DecisionAt(g, true, n, j).TakeAlias? || DecisionAt(g, true, n, j).TakeInplace?
    ensures x < |g.values| && Some(x) in Reads(g.nodes[n]) && x == DecisionAt(g, true, n, j).input && x in Defined(g, n)
    ensures g.nodes[n].outputs[j].Some? && g.nodes[n].outputs[j].value < |g.values|
    ensures RootOf(g, g.nodes[n].outputs[j].value) == RootOf(g, x)
  {
    hide WellFormed, PlannerSpec.AllKernels, StateAt, Defined, DecisionAt, StateBefore;
    TakenIsFinal(g, true, n, j);
    DecidedInput(g, true, n, j);
    x := DecisionAt(g, true, n, j).input;
    assert Some(x) in g.nodes[n].inputs;
  }

  /** Once a node has overwritten a buffer, nothing that lived there before is read again. */
  lemma InplaceEnds(g: Graph, n: nat, j: nat, w: nat)
    requires Planned(g) && n < |g.nodes| && j < |g.nodes[n].outputs| && DecisionAt(g, true, n, j).TakeInplace?
    requires g.nodes[n].outputs[j].Some? && g.nodes[n].outputs[j].value < |g.values|
    requires w in Defined(g, n) && w < |g.values| && RootOf(g, w) == RootOf(g, g.nodes[n].outputs[j].value)
    ensures Dead(g, w, n + 1)
  {
    hide WellFormed, PlannerSpec.AllKernels, StateAt, Defined, StateBefore, Prior, Decide, Before, Dead, SameSize;
    var node, s := g.nodes[n], StateBefore(g, true, n, j);
    TakenIsFinal(g, true, n, j);
    PriorCovers(g, n, j);
    BufferFinal(g, true, n, j, w);
    PlacedNext(g, true, n, j);
    DecideFacts(g, true, s, node, j);
    var x := DecisionAt(g, true, n, j).input;
    var k :| FirstInplace(g, s.useCount, s.buffer, node, ArgNumber(node, j), k, x);
    InplaceParts(g, s.useCount, s.buffer, node, ArgNumber(node, j), k, x);
    AlwaysBefore(g, true, n, j);
    LastUse(g, s, n, j, node.kernelDef.value.inplace[k].0, w);
  }

  lemma LastUse(g: Graph, s: PlanState, n: nat, j: nat, p: int, w: nat)
    requires Before(g, s.useCount, s.buffer, s.freelist, n, j) && w < |s.buffer|
    requires InputAt(g.nodes[n], p).Some? && InputAt(g.nodes[n], p).value < |s.buffer|
    requires s.buffer[InputAt(g.nodes[n], p).value] < |s.useCount|
    requires s.useCount[s.buffer[InputAt(g.nodes[n], p).value]] == 1
    requires s.buffer[w] == s.buffer[InputAt(g.nodes[n], p).value]
    ensures Dead(g, w, n + 1)
  {
    var r := s.buffer[w];
    assert Count(Events(g, n), s.buffer, r) == 1;
    hide WellFormed, Events, Invariant;
    OnlyUse(g, s.buffer, n, p, r);
  }

  lemma OwnIsOwn(g: Graph, n: nat, j: nat)
    requires Planned(g) && n < |g.nodes| && j < |g.nodes[n].outputs| && DecisionAt(g, true, n, j).Own?
    requires g.nodes[n].outputs[j].Some?
    ensures g.nodes[n].outputs[j].value < |g.values|
    ensures RootOf(g, g.nodes[n].outputs[j].value) == g.nodes[n].outputs[j].value
  {
    hide WellFormed, PlannerSpec.AllKernels, StateAt, Defined, StateBefore, Prior, Decide, PlaceOne, Before;
    var s, o := StateBefore(g, true, n, j), g.nodes[n].outputs[j].value;
    PriorStep(g, n, j);
    PlacedNext(g, true, n, j);
    PlaceOneBuffer(g, true, s, g.nodes[n], j);
    AlwaysBefore(g, true, n, j);
    UnplacedOwns(g, s, n, j, o);
    BufferFinal(g, true, n, j + 1, o);
  }

  lemma UnplacedOwns(g: Graph, s: PlanState, n: nat, j: nat, o: nat)
    requires Before(g, s.useCount, s.buffer, s.freelist, n, j) && o < |g.values| && o !in Prior(g, n, j)
    ensures |s.buffer| == |g.values| && s.buffer[o] == o
  {
  }

  /** Without the freelist, an output has a buffer of its own or one that its node reads. */
  lemma NeverFree(g: Graph, n: nat, j: nat)
    requires Planned(g) && n < |g.nodes| && j < |g.nodes[n].outputs| && g.nodes[n].outputs[j].Some?
    ensures var d := DecisionAt(g, true, n, j); d.Own? || d.TakeAlias? || d.TakeInplace?
  {
    hide WellFormed, PlannerSpec.AllKernels, StateBefore, Decide;
    PlacedNext(g, true, n, j);
    DecideFacts(g, true, StateBefore(g, true, n, j), g.nodes[n], j);
  }

  lemma OutputFacts(g: Graph, n: nat, o: nat)
    requires Planned(g) && n < |g.nodes| && Some(o) in g.nodes[n].outputs
    ensures o < |g.values| && o !in Defined(g, n) && o in Defined(g, n + 1)
  {
    assert NodeOk(g, n);
    assert o in Existing(g.nodes[n].outputs);
    DefinedInRange(g, n + 1, o);
  }

  /** What lives in a buffer before a node writes it is dead once it has. */
  lemma WriteEnds(g: Graph, m: nat, r: nat, w: nat)
    requires Planned(g) && m < |g.nodes| && Writes(g, m, r) && w in Defined(g, m) && w < |g.values| && RootOf(g, w) == r
    ensures Dead(g, w, m + 1)
  {
    hide WellFormed, PlannerSpec.AllKernels, RootOf, Defined, DecisionAt, Dead;
    var j: nat :| WritesAt(g, m, j, r);
    var o := g.nodes[m].outputs[j].value;
    OutputFacts(g, m, o);
    if DecisionAt(g, true, m, j).TakeInplace? {
      InplaceEnds(g, m, j, w);
    } else {
      OwnIsOwn(g, m, j);
      RootFacts(g, m, w);
    }
  }

  // ----- whose contents a node reads is always one of its ancestors

  lemma ReadFacts(g: Graph, m: nat, n: nat, w: nat)
    requires Planned(g) && m <= n < |g.nodes| && Some(w) in Reads(g.nodes[n])
    ensures w < |g.values| && w in Defined(g, n) && !Dead(g, w, m)
  {
    assert NodeOk(g, n);
    DefinedInRange(g, n, w);
    assert w in Touched(g.nodes[n]);
    if Dead(g, w, m) { DeadStaysDead(g, w, m, n); }
  }

  lemma {:induction false} ProducerOf(g: Graph, n: nat, w: nat) returns (p: nat)
    requires n <= |g.nodes| && w in Defined(g, n) && w !in Sources(g)
    ensures p < n && Some(w) in g.nodes[p].outputs
  {
    if w in Defined(g, n - 1) {
      p := ProducerOf(g, n - 1, w);
    } else {
      assert w in Existing(g.nodes[n - 1].outputs);
      p := n - 1;
    }
  }

  /** Buffers of values from outside are never overwritten. */
  lemma SourcesNotWritten(g: Graph, m: nat, w: nat)
    requires Planned(g) && m < |g.nodes| && w in Sources(g)
    ensures w < |g.values| && RootOf(g, w) == w && !Writes(g, m, w)
  {
    hide WellFormed, PlannerSpec.AllKernels, RootOf, Writes, Dead;
    DefinedGrows(g, 0, m);
    RootFacts(g, m, w);
    if Writes(g, m, w) {
      WriteEnds(g, m, w, w);
      assert w in Holds(g);
      HeldIsNeverDead(g, w, m + 1);
      assert false;
    }
  }

  lemma EdgeTo(g: Graph, dag: Dag, a: nat, p: nat, n: nat, v: nat)
    requires DependsAs(g, dag) && Feeds(g, p, n, v) && (p == a || Ancestor(dag, a, p))
    ensures Ancestor(dag, a, n)
  {
    hide Ancestor;
    EdgeIsAncestor(dag, a, p, n);
  }

  /** Whoever reads a buffer descends from all its earlier writers. */
  lemma {:induction false} UseAfterWrite(g: Graph, dag: Dag, m: nat, n: nat, w: nat)
    requires Planned(g) && DependsAs(g, dag) && m < n < |g.nodes| && w < |g.values|
    requires Some(w) in Reads(g.nodes[n]) && Writes(g, m, RootOf(g, w))
    ensures Ancestor(dag, m, n)
    decreases n
  {
    hide Planned, DependsAs, RootOf, Writes, Defined, Dead, Ancestor, Sources;
    ReadFacts(g, m + 1, n, w);
    if w in Sources(g) {
      SourcesNotWritten(g, m, w);
      assert false;
    }
    var p := ProducerOf(g, n, w);
    if p < m {
      OutputFacts(g, p, w);
      DefinedGrows(g, p + 1, m);
      WriteEnds(g, m, RootOf(g, w), w);
      assert false;
    }
    if p > m {
      var x := SharesWith(g, m, p, w);
      UseAfterWrite(g, dag, m, p, x);
    }
    EdgeTo(g, dag, m, p, n, w);
  }

  /** A value that comes to live in a buffer written before has been made from one that lived there. */
  lemma SharesWith(g: Graph, m: nat, p: nat, w: nat) returns (x: nat)
    requires Planned(g) && m < p < |g.nodes| && w < |g.values| && Some(w) in g.nodes[p].outputs
             && Writes(g, m, RootOf(g, w))
    ensures x < |g.values| && Some(x) in Reads(g.nodes[p]) && RootOf(g, x) == RootOf(g, w)
  {
    hide WellFormed, PlannerSpec.AllKernels, RootOf, Defined, DecisionAt;
    var j :| 0 <= j < |g.nodes[p].outputs| && g.nodes[p].outputs[j] == Some(w);
    OutputFacts(g, p, w);
    NeverFree(g, p, j);
    if DecisionAt(g, true, p, j).Own? {
      OwnIsOwn(g, p, j);
      WrittenIsDefined(g, m, w);
      DefinedGrows(g, m + 1, p);
      assert false;
    }
    x := TakenIsRead(g, p, j);
  }

  lemma WrittenIsDefined(g: Graph, m: nat, r: nat)
    requires Planned(g) && m < |g.nodes| && Writes(g, m, r)
    ensures r in Defined(g, m + 1)
  {
    hide Planned, RootOf, Defined, DecisionAt;
    var j: nat :| WritesAt(g, m, j, r);
    OutputFacts(g, m, g.nodes[m].outputs[j].value);
    RootFacts(g, m + 1, g.nodes[m].outputs[j].value);
  }

  /** The writers of a buffer descend from each other, in order. */
  lemma WritersInOrder(g: Graph, dag: Dag, m: nat, n: nat, r: nat)
    requires Planned(g) && DependsAs(g, dag) && m < n < |g.nodes| && Writes(g, m, r) && Writes(g, n, r)
    ensures Ancestor(dag, m, n)
  {
    hide Planned, DependsAs, RootOf, Defined, DecisionAt, Ancestor, Writes;
    var j := WriteAt(g, n, r);
    var o := g.nodes[n].outputs[j].value;
    assert g.nodes[n].outputs[j] == Some(o);
    var x := SharesWith(g, m, n, o);
    UseAfterWrite(g, dag, m, n, x);
  }

  lemma WriteAt(g: Graph, n: nat, r: nat) returns (j: nat)
    requires Planned(g) && n < |g.nodes| && Writes(g, n, r)
    ensures j < |g.nodes[n].outputs| && g.nodes[n].outputs[j].Some? && g.nodes[n].outputs[j].value < |g.values|
    ensures RootOf(g, g.nodes[n].outputs[j].value) == r
  {
    hide Planned, RootOf, DecisionAt;
    j :| WritesAt(g, n, j, r);
  }

  lemma ReaderAfterWriter(g: Graph, dag: Dag, m: nat, n: nat, r: nat)
    requires Planned(g) && DependsAs(g, dag) && m < n < |g.nodes| && Writes(g, m, r) && ReadsBuffer(g, n, r)
    ensures Ancestor(dag, m, n)
  {
    hide Planned, DependsAs, RootOf, Ancestor, Writes;
    var w: nat :| w < |g.values| && Some(w) in Reads(g.nodes[n]) && RootOf(g, w) == r;
    UseAfterWrite(g, dag, m, n, w);
  }

  // ----- both directions

  lemma DagFacts(g: Graph, dag: Dag)
    requires DependsAs(g, dag)
    ensures Ranked(dag, Order(g)) && |dag.succ| == |g.nodes| && ParallelOrdering.AllKernels(dag)
  {
    OrderRanks(g, dag);
    hide Ranked, Order, ParallelOrdering.AllKernels;
  }

  lemma WriteInPrefix(g: Graph, acts: seq<Action>, i: nat, m: nat, r: nat) returns (k: nat)
    requires Planned(g) && i <= |acts| && Compute(m) in acts[..i] && m < |g.nodes| && Writes(g, m, r)
    ensures k < i && acts[k] == Compute(m) && IsWrite(g, acts[k], r)
  {
    hide Planned, Writes;
    k :| 0 <= k < |acts[..i]| && acts[..i][k] == Compute(m);
  }

  /** The last write in a prefix is not older than any other: writers of one buffer are computed in order. */
  lemma LastIsNotOlder(g: Graph, dag: Dag, op: Op, states: seq<State>, acts: seq<Action>, i: nat, r: nat, m: nat)
    requires Planned(g) && DependsAs(g, dag) && Execution(dag, op, states, acts) && i <= |acts|
    requires m < |g.nodes| && Writes(g, m, r) && Compute(m) in acts[..i]
    ensures LastIn(g, acts[..i], r).Some? && LastIn(g, acts[..i], r).value >= m
  {
    hide Planned, DependsAs, Execution, Writes, IsWrite, Ranked, Ancestor, LastIn;
    DagFacts(g, dag);
    var k := WriteInPrefix(g, acts, i, m, r);
    assert acts[..i][k] == acts[k];
    LastInSome(g, acts[..i], r, k);
    var j := LastInAt(g, acts[..i], r);
    IsCompute(g, acts[..i][j], r);
    assert acts[..i][j] == acts[j];
    var n := acts[j].n;
    if n < m {
      WritersInOrder(g, dag, n, m, r);
      ComputedOnceInOrder(dag, op, Order(g), states, acts, k, m);
      ComputedOnceInOrder(dag, op, Order(g), states, acts, j, n);
      PrefixGrows(acts, k, j, Compute(n));
      assert false;
    }
  }

  lemma PrefixGrows(acts: seq<Action>, i: nat, j: nat, a: Action)
    requires i <= j <= |acts| && a in acts[..i]
    ensures a in acts[..j]
  {
    var k :| 0 <= k < i && acts[..i][k] == a;
    assert acts[..j][k] == a;
  }

  lemma LastInSome(g: Graph, acts: seq<Action>, r: nat, k: nat)
    requires Planned(g) && k < |acts| && IsWrite(g, acts[k], r)
    ensures LastIn(g, acts, r).Some?
  {
    hide Planned, IsWrite;
  }

  /** If readers are ancestors of later writers, a node reads what the sequential run would let it read. */
  lemma RightRead(g: Graph, dag: Dag, op: Op, states: seq<State>, acts: seq<Action>, i: nat, r: nat)
    requires Planned(g) && DependsAs(g, dag) && ReadersAreAncestors(g, dag) && Execution(dag, op, states, acts)
    requires i < |acts| && acts[i].Compute? && acts[i].n < |g.nodes| && ReadsBuffer(g, acts[i].n, r)
    ensures LastIn(g, acts[..i], r) == LastBefore(g, r, acts[i].n)
  {
    hide Planned, DependsAs, Execution, Writes, IsWrite, Ranked, Ancestor, LastIn, LastBefore, ReadsBuffer;
    DagFacts(g, dag);
    var a := acts[i].n;
    ComputedOnceInOrder(dag, op, Order(g), states, acts, i, a);
    var before := LastBefore(g, r, a);
    if before.Some? {
      ReaderAfterWriter(g, dag, before.value, a, r);
      LastIsNotOlder(g, dag, op, states, acts, i, r, before.value);
    }
    if LastIn(g, acts[..i], r).Some? {
      var j := LastInAt(g, acts[..i], r);
      IsCompute(g, acts[..i][j], r);
      assert acts[..i][j] == acts[j];
      var n := acts[j].n;
      if n > a {
        ComputedOnceInOrder(dag, op, Order(g), states, acts, j, n);
        PrefixGrows(acts, j, i, Compute(a));
        assert false;
      }
      assert n != a;
    }
  }

  /** If a reader is no ancestor of a later writer, some execution lets it read what that writer has left. */
  lemma WrongRead(g: Graph, dag: Dag, op: Op, init: State, a: nat, b: nat, r: nat)
    returns (states: seq<State>, acts: seq<Action>, i: nat)
    requires Planned(g) && DependsAs(g, dag) && Init(dag, init) && a < b < |g.nodes|
    requires ReadsBuffer(g, a, r) && Writes(g, b, r) && !Ancestor(dag, a, b)
    ensures Execution(dag, op, states, acts) && states[0] == init && i < |acts| && acts[i] == Compute(a)
    ensures LastIn(g, acts[..i], r) != LastBefore(g, r, a)
  {
    hide Planned, DependsAs, Writes, IsWrite, Ranked, Ancestor, LastIn, LastBefore, ReadsBuffer, Do, Enabled,
      ParallelOrdering.AllKernels;
    DagFacts(g, dag);
    NothingComputed(dag, init, a);
    StartClean(dag, init);
    assert Execution(dag, op, [init], []);
    hide Execution, Init;
    var states1, acts1 := RunWithout(dag, op, Order(g), [init], [], a, b);
    LastState(dag, op, states1, acts1);
    ComputedExactlyIf(dag, op, Order(g), states1, acts1, |acts1|, a);
    ComputedExactlyIf(dag, op, Order(g), states1, acts1, |acts1|, b);
    assert acts1[..|acts1|] == acts1;
    states, acts := RunUntil(dag, op, Order(g), states1, acts1, a);
    LastState(dag, op, states, acts);
    ComputedExactlyIf(dag, op, Order(g), states, acts, |acts|, a);
    assert acts[..|acts|] == acts;
    i :| 0 <= i < |acts| && acts[i] == Compute(a);
    LaterThan(acts, acts1, i, a);
    PrefixHas(acts, acts1, i, Compute(b));
    LastIsNotOlder(g, dag, op, states, acts, i, r, b);
  }

  lemma StartClean(g: Dag, s: State)
    requires Init(g, s)
    ensures NoFailure(s) && |s.status| == |g.succ|
  {
  }

  lemma LaterThan(acts: seq<Action>, before: seq<Action>, i: nat, a: nat)
    requires |before| <= |acts| && acts[..|before|] == before && i < |acts| && acts[i] == Compute(a)
             && Compute(a) !in before
    ensures |before| <= i
  {
    assert forall k :: 0 <= k < |before| ==> before[k] == acts[k];
  }

  lemma PrefixHas(acts: seq<Action>, before: seq<Action>, i: nat, act: Action)
    requires |before| <= i <= |acts| && acts[..|before|] == before && act in before
    ensures act in acts[..i]
  {
    var k :| 0 <= k < |before| && before[k] == act;
    assert acts[..i][k] == acts[..|before|][k];
  }

  /**
   In-place sharing is safe under every schedule of the parallel executor exactly if every reader of an overwritten
   buffer is an ancestor of the node that overwrites it; coming earlier in the topological order is not enough.
   */
  lemma ReadsRightExactlyIf(g: Graph, dag: Dag, op: Op, init: State)
    requires Planned(g) && DependsAs(g, dag) && Init(dag, init)
    ensures ReadsRight(g, dag, op, init) <==> ReadersAreAncestors(g, dag)
  {
    hide Planned, DependsAs, Init, Do, Enabled, ReadsBuffer, Writes, Ancestor, LastIn, LastBefore;
    if a: nat, b: nat, r: nat :| a < b < |g.nodes| && ReadsBuffer(g, a, r) && Writes(g, b, r) && !Ancestor(dag, a, b) {
      var states, acts, i := WrongRead(g, dag, op, init, a, b, r);
    } else {
      forall states: seq<State>, acts: seq<Action>, i: nat, r: nat
        | Execution(dag, op, states, acts) && states[0] == init && i < |acts| && acts[i].Compute?
          && acts[i].n < |g.nodes| && ReadsBuffer(g, acts[i].n, r)
        ensures LastIn(g, acts[..i], r) == LastBefore(g, r, acts[i].n)
      {
        RightRead(g, dag, op, states, acts, i, r);
      }
    }
  }
}
