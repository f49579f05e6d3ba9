/** A graph whose parallel run can read an overwritten buffer, because a reader is no ancestor of the writer. */
module ParallelCounterexample {
  import opened Wrappers
  import opened GraphModel
  import opened PlanSafety
  import opened PlannerInvariant
  import opened PlannerSpec
  import opened Placement
  import opened PlannerSteps
  import opened PlannerRun
  import opened ParallelExecutor
  import opened ParallelOrdering
  import opened ParallelSharing
  import Small = PlanCounterexamples

  function Plain(inputs: seq<Option<nat>>, out: nat): Node {
    Node(inputs, [], [Some(out)], Some(KernelDef([], [])))
  }

  /** Two nodes read value 0; the second of them, in the order, may overwrite it. */
  function Diamond(): Graph {
    Graph([Small.Unit(), Small.Unit(), Small.Unit(), Small.Unit()], [], [], [],
          [Plain([], 0), Plain([Some(0)], 1), Node([Some(0)], [], [Some(2)], Some(KernelDef([], [(0, 0)]))),
           Plain([Some(1), Some(2)], 3)], [3])
  }

  function DiamondDag(): Dag {
    Dag([[1, 2], [3], [3], []], [true, true, true, true])
  }

  lemma DiamondDefined()
    ensures var g := Diamond();
            && |g.nodes| == 4 && Existing(g.nodes[0].outputs) == [0] && Existing(g.nodes[1].outputs) == [1]
            && Existing(g.nodes[2].outputs) == [2] && Existing(g.nodes[3].outputs) == [3]
            && Existing(g.nodes[2].inputs) == [0] && Existing(g.nodes[3].inputs) == [1, 2]
            && Defined(g, 0) == {} && Defined(g, 1) == {0} && Defined(g, 2) == {0, 1} && Defined(g, 3) == {0, 1, 2}
            && Defined(g, 4) == {0, 1, 2, 3}
  {
    var g := Diamond();
    var args: seq<Option<nat>> := [Some(1), Some(2)];
    assert args[1..] == [Some(2)];
    assert Existing([Some(0)]) == [0] && Existing([Some(1)]) == [1] && Existing([Some(2)]) == [2]
           && Existing([Some(3)]) == [3];
    assert Existing(args) == [1, 2];
    hide Existing;
    assert Defined(g, 1) == {0};
    assert Defined(g, 2) == {0, 1};
    assert Defined(g, 3) == {0, 1, 2};
    assert Defined(g, 4) == {0, 1, 2, 3};
  }

  lemma DiamondNodes()
    ensures |Diamond().nodes| == 4
    ensures NodeOk(Diamond(), 0) && NodeOk(Diamond(), 1) && NodeOk(Diamond(), 2) && NodeOk(Diamond(), 3)
  {
    hide Existing, Defined;
    DiamondDefined();
  }

  lemma DiamondPlanned()
    ensures Planned(Diamond()) && |Diamond().nodes| == 4
  {
    hide Existing, Defined, NodeOk;
    DiamondDefined();
    DiamondNodes();
  }

  lemma DiamondEvents()
    ensures |Diamond().nodes| == 4 && Events(Diamond(), 2) == [0] + [2, 1, 2, 3, 3]
  {
    hide Existing;
    DiamondDefined();
    var g := Diamond();
    assert Existing(g.nodes[2].implicits) == [] && Existing(g.nodes[3].implicits) == [] by { Small.NoArgs(); }
    assert SourceList(g, 4) == [];
    assert Events(g, 4) == [3];
    assert Events(g, 3) == [1, 2, 3, 3];
  }

  /** Without pairs and without the freelist an output owns its buffer. */
  lemma PlainOwns(n: nat)
    requires Planned(Diamond()) && (n == 0 || n == 1)
    ensures RootOf(Diamond(), n) == n
  {
    var g := Diamond();
    var node := g.nodes[n];
    hide WellFormed, PlannerSpec.AllKernels, StateBefore, StateAt, RootOf;
    PlacedNext(g, true, n, 0);
    assert Existing(node.outputs[..0]) == [];
    OwnIsOwn(g, n, 0);
  }

  /** When the third node is planned, value 0 is at its last use. */
  lemma DiamondCounts()
    requires Planned(Diamond())
    ensures var s := StateAt(Diamond(), true, 2);
            |s.buffer| == |s.useCount| == 4 && s.buffer[0] == 0 && s.useCount[0] == 1
  {
    hide WellFormed, PlannerSpec.AllKernels, StateAt, Existing, Events, Ready, Count, Defined;
    var g := Diamond();
    PlainOwns(0);
    PlainOwns(1);
    DiamondDefined();
    DiamondEvents();
    AlwaysReady(false, g, true, 2);
    ReadyCounts(g, StateAt(g, true, 2), 2);
    BufferStays(g, true, 2, 4, 0);
    BufferStays(g, true, 2, 4, 1);
    var s := StateAt(g, true, 2);
    var rest: seq<nat> := [2, 1, 2, 3, 3];
    CountConcat([0], rest, s.buffer, 0);
    CountZero(rest, s.buffer, 0);
    Small.CountOne(s.buffer);
  }

  /** Use counts are exact, and what is not yet produced has its own buffer. */
  lemma ReadyCounts(g: Graph, s: PlanState, pc: nat)
    requires pc <= |g.nodes| && Ready(false, g, s.useCount, s.buffer, s.freelist, s.alloc, pc)
    ensures |s.useCount| == |s.buffer| == |g.values|
    ensures forall v :: 0 <= v < |s.buffer| && v !in Defined(g, pc) ==> s.buffer[v] == v
    ensures forall r :: 0 <= r < |s.buffer| && s.buffer[r] == r ==> s.useCount[r] == Count(Events(g, pc), s.buffer, r)
  {
    hide WellFormed, StepsSafe, AllocOk, FreelistOk, Defined, Events;
  }

  /** A state in which value 0 is at its last use lets the third node overwrite it. */
  lemma OverwritesLastUse(s: PlanState)
    requires PlannerSpec.Sized(Diamond(), s) && Plannable(Diamond(), Diamond().nodes[2]) && s.buffer[0] == 0
             && s.useCount[0] == 1
    ensures Decide(Diamond(), true, s, Diamond().nodes[2], 0) == TakeInplace(0)
  {
    var g := Diamond();
    var node := g.nodes[2];
    assert node.outputs[..0] == [];
    assert ArgNumber(node, 0) == 0 by { Small.NoArgs(); }
    hide Existing, PlannerSpec.Sized, Plannable;
    assert InplaceHit(g, s.useCount, s.buffer, node, 0, 0);
  }

  lemma DiamondInplace()
    requires Planned(Diamond())
    ensures DecisionAt(Diamond(), true, 2, 0) == TakeInplace(0)
  {
    hide WellFormed, PlannerSpec.AllKernels, StateBefore, StateAt, Decide, PlannerSpec.Sized, Plannable, Existing;
    var g := Diamond();
    DiamondCounts();
    PlacedFirst(g, true, 2);
    PlacedNext(g, true, 2, 0);
    OverwritesLastUse(StateBefore(g, true, 2, 0));
  }

  lemma DiamondWrites()
    requires Planned(Diamond())
    ensures |Diamond().nodes| == 4 && Writes(Diamond(), 2, 0) && ReadsBuffer(Diamond(), 1, 0)
  {
    var g := Diamond();
    hide WellFormed, PlannerSpec.AllKernels, StateBefore, StateAt, RootOf, DecisionAt;
    DiamondInplace();
    PlainOwns(0);
    var x := TakenIsRead(g, 2, 0);
    assert WritesAt(g, 2, 0, 0);
    assert Reads(g.nodes[1])[0] == Some(0);
  }

  lemma DiamondDepends()
    ensures DependsAs(Diamond(), DiamondDag())
  {
    var g, dag := Diamond(), DiamondDag();
    forall m, n, v: nat | Feeds(g, m, n, v)
      ensures n in dag.succ[m]
    {
      assert Reads(g.nodes[n]) == g.nodes[n].inputs;
      assert dag.succ[0][0] == 1 && dag.succ[0][1] == 2 && dag.succ[1][0] == 3 && dag.succ[2][0] == 3;
    }
  }

  lemma NotAncestor()
    ensures !Ancestor(DiamondDag(), 1, 2)
  {
    var dag := DiamondDag();
    forall k: nat | k > 0
      ensures !Leads(dag, 1, 2, k)
    {
      assert forall m: nat :: m < 4 && 2 in dag.succ[m] ==> m == 0;
      NotFromOne(k - 1);
    }
  }

  lemma NotFromOne(k: nat)
    ensures !Leads(DiamondDag(), 1, 0, k)
  {
  }

  /**
   The planner lets the third node overwrite the value that the second one reads, and nothing makes it wait: some
   execution reads an overwritten buffer.
   */
  lemma DiamondGoesWrong(op: Op, init: State)
    requires Init(DiamondDag(), init)
    ensures Planned(Diamond()) && DependsAs(Diamond(), DiamondDag()) && !ReadsRight(Diamond(), DiamondDag(), op, init)
  {
    hide *;
    DiamondPlanned();
    DiamondDepends();
    DiamondWrites();
    NotAncestor();
    ReaderNoAncestor(Diamond(), DiamondDag(), 1, 2, 0);
    ReadsRightExactlyIf(Diamond(), DiamondDag(), op, init);
  }

  lemma ReaderNoAncestor(g: Graph, dag: Dag, a: nat, b: nat, r: nat)
    requires Planned(g) && a < b < |g.nodes| && ReadsBuffer(g, a, r) && Writes(g, b, r) && !Ancestor(dag, a, b)
    ensures !ReadersAreAncestors(g, dag)
  {
    hide Planned, ReadsBuffer, Writes, Ancestor;
  }
}
