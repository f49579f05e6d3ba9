/** Which nodes the parallel executor keeps in order, and which it need not. */
module ParallelOrdering {
  import opened Wrappers
  import opened Counting
  import opened ParallelExecutor
  import opened ParallelInvariant
  import opened ParallelTheorems

  /** A path of k edges from a to b. */
  ghost predicate Leads(g: Dag, a: nat, b: nat, k: nat)
    decreases k
  {
    if k == 0 then a == b
    else exists m: nat :: m < |g.succ| && b in g.succ[m] && Leads(g, a, m, k - 1)
  }

  ghost predicate Ancestor(g: Dag, a: nat, b: nat) {
    exists k: nat :: k > 0 && Leads(g, a, b, k)
  }

  lemma EdgeIsAncestor(g: Dag, a: nat, m: nat, b: nat)
    requires m < |g.succ| && b in g.succ[m] && (m == a || Ancestor(g, a, m))
    ensures Ancestor(g, a, b)
  {
    if m == a {
      assert Leads(g, a, m, 0);
      assert Leads(g, a, b, 1);
    } else {
      var k: nat :| k > 0 && Leads(g, a, m, k);
      assert Leads(g, a, b, k + 1);
    }
  }

  /** What has left the waiting state has all its ancestors' results. */
  lemma {:induction false} AncestorsComputed(g: Dag, op: Op, rank: seq<nat>, s: State, a: nat, b: nat, k: nat)
    requires Inv(g, op, rank, s) && k > 0 && Leads(g, a, b, k) && b < |s.status| && !s.status[b].Waiting?
    ensures a < |s.status| && HasResult(s.status[a])
    decreases k
  {
    hide Inv, RefsExact, WaitingOk, LockOk;
    InvParts(g, op, rank, s);
    var m: nat :| m < |g.succ| && b in g.succ[m] && Leads(g, a, m, k - 1);
    PredecessorsComputed(g, s, m, b);
    if k > 1 { AncestorsComputed(g, op, rank, s, a, m, k - 1); }
  }

  // ----- running everything but a

  ghost predicate NoFailure(s: State) {
    forall n :: 0 <= n < |s.status| ==> !s.status[n].Throwing? && !s.status[n].Failed?
  }

  ghost predicate AllKernels(g: Dag) {
    forall n :: 0 <= n < |g.hasKernel| ==> g.hasKernel[n]
  }

  /** A step that neither fails nor computes a. */
  ghost predicate Spares(act: Action, a: nat) {
    !act.Throw? && act != Compute(a)
  }

  /** A running node moves only by its own steps. */
  lemma RunningStays(g: Dag, op: Op, rank: seq<nat>, s: State, act: Action, k: nat)
    requires Inv(g, op, rank, s) && Enabled(g, s, act) && k < |s.status| && s.status[k].Running?
    requires act != Compute(k) && act != Throw(k)
    ensures |Do(g, op, s, act).status| == |s.status| && Do(g, op, s, act).status[k].Running?
  {
    hide Inv, RefsExact, LockOk, CounterOk, ResultsOk, WaitingOk, ReleaseOne;
    InvParts(g, op, rank, s);
    LockClaims(s);
    match act
    case EnqueueRoot => RootWaits(g, s);
    case ReleaseEdge(n) => RunningRelease(g, op, s, n, k);
    case _ =>
  }

  lemma LockClaims(s: State)
    requires LockOk(s)
    ensures ClaimsOk(s)
  {
  }

  lemma RunningRelease(g: Dag, op: Op, s: State, n: nat, k: nat)
    requires Sized(g, s) && RefsExact(g, s) && WaitingOk(g, s) && Enabled(g, s, ReleaseEdge(n)) && k < |s.status|
             && s.status[k].Running?
    ensures var s' := Do(g, op, s, ReleaseEdge(n)); |s'.status| == |s.status| && s'.status[k].Running?
  {
    hide RefsExact, WaitingOk, Do;
    TargetWaits(g, s, n);
    ReleaseShape(g, op, s, n, g.succ[n][s.status[n].done]);
  }

  /** A step that is no failure leaves a failure-free state failure-free. */
  lemma NoFailureStays(g: Dag, op: Op, rank: seq<nat>, s: State, act: Action)
    requires Inv(g, op, rank, s) && Enabled(g, s, act) && !act.Throw? && NoFailure(s)
    ensures |Do(g, op, s, act).status| == |s.status| && NoFailure(Do(g, op, s, act))
  {
    hide Inv, Do, Sized, RefsExact, WaitingOk, LockOk;
    InvParts(g, op, rank, s);
    StatusLength(g, op, rank, s, act);
    var s' := Do(g, op, s, act);
    forall k | 0 <= k < |s.status|
      ensures !s'.status[k].Throwing? && !s'.status[k].Failed?
    {
      StepMoves(g, op, s, act, k);
      if s.status[k].Running? && act != Compute(k) { RunningStays(g, op, rank, s, act, k); }
      if act == Compute(k) { ComputeMoves(g, op, s, k); }
    }
  }

  lemma StatusLength(g: Dag, op: Op, rank: seq<nat>, s: State, act: Action)
    requires Inv(g, op, rank, s) && Enabled(g, s, act)
    ensures Sized(g, s) && |Do(g, op, s, act).status| == |s.status|
  {
    hide RefsExact, WaitingOk, LockOk, CounterOk, ResultsOk;
  }

  lemma SparedStays(g: Dag, op: Op, rank: seq<nat>, s: State, act: Action, a: nat)
    requires Inv(g, op, rank, s) && Enabled(g, s, act) && Spares(act, a) && NoFailure(s) && a < |s.status|
             && !HasResult(s.status[a])
    ensures var s' := Do(g, op, s, act); |s'.status| == |s.status| && NoFailure(s') && !HasResult(s'.status[a])
  {
    hide Inv, Do, Sized, RefsExact, WaitingOk, LockOk;
    InvParts(g, op, rank, s);
    NoFailureStays(g, op, rank, s, act);
    StepMoves(g, op, s, act, a);
    if s.status[a].Running? { RunningStays(g, op, rank, s, act, a); }
  }

  lemma ComputeMoves(g: Dag, op: Op, s: State, k: nat)
    requires Sized(g, s) && Enabled(g, s, Compute(k))
    ensures Do(g, op, s, Compute(k)).status[k].Computed?
  {
  }

  /** The lock holder can always go on. */
  lemma HolderGoesOn(g: Dag, op: Op, rank: seq<nat>, s: State, m: nat, a: nat) returns (act: Action)
    requires Inv(g, op, rank, s) && m < |s.status| && s.status[m].Releasing?
    ensures Enabled(g, s, act) && Spares(act, a)
  {
    hide RefsExact, LockOk, CounterOk, ResultsOk;
    act := if s.status[m].done < |g.succ[m]| then ReleaseEdge(m) else Unlock(m);
  }

  /** If n has no result although all its predecessors have, something can be done without a. */
  lemma StepForReady(g: Dag, op: Op, rank: seq<nat>, s: State, a: nat, n: nat) returns (act: Action)
    requires Inv(g, op, rank, s) && NoFailure(s) && AllKernels(g) && n < |s.status| && n != a && !HasResult(s.status[n])
    requires forall m :: 0 <= m < |g.succ| && n in g.succ[m] ==> m < |s.status| && HasResult(s.status[m])
    ensures Enabled(g, s, act) && Spares(act, a)
  {
    hide Inv, RefsExact, CounterOk, ResultsOk, WaitingOk, LockOk, IsRoot;
    InvParts(g, op, rank, s);
    InvRanked(g, op, rank, s);
    if holder :| 0 <= holder < |s.status| && s.status[holder].Releasing? {
      act := HolderGoesOn(g, op, rank, s, holder, a);
    } else {
      NobodyClaims(s, n);
      match s.status[n]
      case Queued => act := Start(n);
      case Running => act := Compute(n);
      case Waiting =>
        if s.refs[n] == 0 {
          RootIsLeft(g, s, n);
          act := EnqueueRoot;
        } else {
          HoldingSum(g, s, n);
          var m :| 0 <= m < |s.status| && Holding(g, s.status, n)[m] > 0;
          CountOfZero(g.succ[m], n);
          act := Lock(m);
        }
    }
  }

  lemma NobodyClaims(s: State, n: nat)
    requires LockOk(s) && n < |s.status| && forall m :: 0 <= m < |s.status| ==> !s.status[m].Releasing?
    ensures !s.status[n].Claimed?
  {
  }

  lemma RootIsLeft(g: Dag, s: State, n: nat)
    requires Sized(g, s) && WaitingOk(g, s) && n < |s.status| && s.status[n].Waiting? && s.refs[n] == 0
             && g.hasKernel[n]
    ensures s.rootsLeft != []
  {
  }

  /** Unless b has its result, some step can be taken without a, if a is not an ancestor of b. */
  lemma {:induction false} StepWithout(g: Dag, op: Op, rank: seq<nat>, s: State, a: nat, b: nat) returns (act: Action)
    requires Inv(g, op, rank, s) && NoFailure(s) && AllKernels(g) && b < |s.status| == |rank| && !HasResult(s.status[b])
    requires a != b && !Ancestor(g, a, b)
    ensures Enabled(g, s, act) && Spares(act, a)
    decreases rank[b]
  {
    hide Inv, NoFailure, AllKernels, Enabled, Spares, Ancestor;
    InvRanked(g, op, rank, s);
    if m :| 0 <= m < |g.succ| && b in g.succ[m] && !HasResult(s.status[m]) {
      RankGrows(g, rank, m, b);
      if m == a || Ancestor(g, a, m) { EdgeIsAncestor(g, a, m, b); }
      act := StepWithout(g, op, rank, s, a, m);
    } else {
      act := StepForReady(g, op, rank, s, a, b);
    }
  }

  lemma InvRanked(g: Dag, op: Op, rank: seq<nat>, s: State)
    requires Inv(g, op, rank, s)
    ensures Ranked(g, rank) && Sized(g, s) && |s.status| == |g.succ|
  {
    hide RefsExact, WaitingOk, LockOk, CounterOk, ResultsOk;
  }

  ghost predicate Overtakes(s: State, a: nat, b: nat) {
    a < |s.status| && b < |s.status| && HasResult(s.status[b]) && !HasResult(s.status[a])
  }

  /** Extends an execution, without computing a, until b has its result. */
  lemma {:induction false} RunWithout(g: Dag, op: Op, rank: seq<nat>, states: seq<State>, acts: seq<Action>, a: nat,
                                      b: nat)
    returns (states': seq<State>, acts': seq<Action>)
    requires Ranked(g, rank) && AllKernels(g) && Execution(g, op, states, acts) && NoFailure(states[|acts|])
    requires a < |g.succ| && b < |g.succ| == |states[|acts|].status| && a != b && !Ancestor(g, a, b)
             && !HasResult(states[|acts|].status[a])
    ensures Execution(g, op, states', acts') && states'[0] == states[0] && Overtakes(states'[|acts'|], a, b)
    ensures NoFailure(states'[|acts'|])
    decreases Sum(Most(g)) + |states[0].rootsLeft| - |acts|
  {
    hide Ranked, Inv, Do, Enabled, Init, Sum, Ancestor, AllKernels, NoFailure, Spares;
    var s := states[|acts|];
    if HasResult(s.status[b]) {
      return states, acts;
    }
    AlwaysInv(g, op, rank, states, acts, |acts|);
    InvParts(g, op, rank, s);
    var act := StepWithout(g, op, rank, s, a, b);
    SparedStays(g, op, rank, s, act, a);
    var more, moreActs := states + [Do(g, op, s, act)], acts + [act];
    assert Execution(g, op, more, moreActs);
    RunsAreFinite(g, op, rank, more, moreActs);
    states', acts' := RunWithout(g, op, rank, more, moreActs, a, b);
  }

  /** In every execution from this state, b has a result only when a has one. */
  ghost predicate AlwaysFirst(g: Dag, op: Op, init: State, a: nat, b: nat) {
    forall states: seq<State>, acts: seq<Action>, i: nat ::
      Execution(g, op, states, acts) && i < |states| && states[0] == init ==> !Overtakes(states[i], a, b)
  }

  lemma AncestorGoesFirst(g: Dag, op: Op, rank: seq<nat>, init: State, a: nat, b: nat)
    requires Ranked(g, rank) && Ancestor(g, a, b)
    ensures AlwaysFirst(g, op, init, a, b)
  {
    hide Ranked, Inv, Do, Enabled, Init, Execution;
    var k: nat :| k > 0 && Leads(g, a, b, k);
    forall states: seq<State>, acts: seq<Action>, i: nat
      | Execution(g, op, states, acts) && i < |states| && states[0] == init
      ensures !Overtakes(states[i], a, b)
    {
      AlwaysInv(g, op, rank, states, acts, i);
      if b < |states[i].status| && HasResult(states[i].status[b]) {
        AncestorsComputed(g, op, rank, states[i], a, b, k);
      }
    }
  }

  /** The executor makes b wait for a exactly when a is an ancestor of b. */
  lemma OrderedExactlyIfAncestor(g: Dag, op: Op, rank: seq<nat>, init: State, a: nat, b: nat)
    requires Ranked(g, rank) && AllKernels(g) && Init(g, init) && a < |g.succ| && b < |g.succ| && a != b
    ensures AlwaysFirst(g, op, init, a, b) <==> Ancestor(g, a, b)
  {
    if Ancestor(g, a, b) {
      AncestorGoesFirst(g, op, rank, init, a, b);
    } else {
      assert Execution(g, op, [init], []);
      hide Ranked, Do, Enabled, Ancestor, AllKernels, Execution;
      var states, acts := RunWithout(g, op, rank, [init], [], a, b);
      LastState(g, op, states, acts);
      assert Overtakes(states[|acts|], a, b);
    }
  }

  lemma LastState(g: Dag, op: Op, states: seq<State>, acts: seq<Action>)
    requires Execution(g, op, states, acts)
    ensures |states| == |acts| + 1
  {
  }

  // ----- running until a node has its result

  /** No path starts at a node that does not exist. */
  lemma {:induction false} NoPathFromOutside(g: Dag, b: nat, k: nat)
    requires b < |g.succ|
    ensures !Leads(g, |g.succ|, b, k)
    decreases k
  {
    if k > 0 {
      forall m: nat | m < |g.succ| && b in g.succ[m]
        ensures !Leads(g, |g.succ|, m, k - 1)
      {
        NoPathFromOutside(g, m, k - 1);
      }
    }
  }

  /** Extends a failure-free execution until b has its result. */
  lemma {:induction false} RunUntil(g: Dag, op: Op, rank: seq<nat>, states: seq<State>, acts: seq<Action>, b: nat)
    returns (states': seq<State>, acts': seq<Action>)
    requires Ranked(g, rank) && AllKernels(g) && Execution(g, op, states, acts) && NoFailure(states[|acts|])
    requires b < |g.succ| == |states[|acts|].status|
    ensures Execution(g, op, states', acts') && states'[0] == states[0] && |acts| <= |acts'| && acts'[..|acts|] == acts
    ensures b < |states'[|acts'|].status| && HasResult(states'[|acts'|].status[b])
    decreases Sum(Most(g)) + |states[0].rootsLeft| - |acts|
  {
    hide Ranked, Inv, Do, Enabled, Init, Sum, Ancestor, AllKernels, NoFailure, Spares;
    var s := states[|acts|];
    if HasResult(s.status[b]) {
      return states, acts;
    }
    AlwaysInv(g, op, rank, states, acts, |acts|);
    InvParts(g, op, rank, s);
    NotFromOutside(g, b);
    var act := StepWithout(g, op, rank, s, |g.succ|, b);
    SparesFailure(act, |g.succ|);
    NoFailureStays(g, op, rank, s, act);
    var more, moreActs := states + [Do(g, op, s, act)], acts + [act];
    assert Execution(g, op, more, moreActs);
    RunsAreFinite(g, op, rank, more, moreActs);
    states', acts' := RunUntil(g, op, rank, more, moreActs, b);
    assert acts'[..|acts|] == moreActs[..|acts|] == acts;
  }

  lemma NotFromOutside(g: Dag, b: nat)
    requires b < |g.succ|
    ensures !Ancestor(g, |g.succ|, b)
  {
    forall k: nat
      ensures !Leads(g, |g.succ|, b, k)
    {
      NoPathFromOutside(g, b, k);
    }
  }

  lemma SparesFailure(act: Action, a: nat)
    requires Spares(act, a)
    ensures !act.Throw?
  {
  }

  // ----- which nodes have been computed

  lemma StepComputes(g: Dag, op: Op, rank: seq<nat>, s: State, act: Action, m: nat)
    requires Inv(g, op, rank, s) && Enabled(g, s, act) && m < |s.status|
    ensures Sized(g, s) && |Do(g, op, s, act).status| == |s.status|
    ensures HasResult(Do(g, op, s, act).status[m]) <==> HasResult(s.status[m]) || act == Compute(m)
    ensures act == Compute(m) ==> s.status[m].Running?
  {
    hide Inv, Do, RefsExact, WaitingOk, LockOk;
    InvParts(g, op, rank, s);
    StatusLength(g, op, rank, s, act);
    StepMoves(g, op, s, act, m);
    if act == Compute(m) {
      ComputeMoves(g, op, s, m);
    } else if s.status[m].Running? {
      if act == Throw(m) {
        ThrowMoves(g, op, s, m);
      } else {
        RunningStays(g, op, rank, s, act, m);
      }
    }
  }

  lemma ThrowMoves(g: Dag, op: Op, s: State, k: nat)
    requires Sized(g, s) && Enabled(g, s, Throw(k))
    ensures Do(g, op, s, Throw(k)).status[k].Throwing?
  {
  }

  /** A node has a result exactly if it has been computed. */
  lemma {:induction false} ComputedExactlyIf(g: Dag, op: Op, rank: seq<nat>, states: seq<State>, acts: seq<Action>,
                                             i: nat, m: nat)
    requires Ranked(g, rank) && Execution(g, op, states, acts) && i < |states| && m < |g.succ|
    ensures |states[i].status| == |g.succ| && (HasResult(states[i].status[m]) <==> Compute(m) in acts[..i])
  {
    hide Ranked, Inv, Do, Enabled, Init;
    AlwaysInv(g, op, rank, states, acts, i);
    InvRanked(g, op, rank, states[i]);
    if i == 0 {
      NothingComputed(g, states[0], m);
    } else {
      ComputedExactlyIf(g, op, rank, states, acts, i - 1, m);
      AlwaysInv(g, op, rank, states, acts, i - 1);
      StepComputes(g, op, rank, states[i - 1], acts[i - 1], m);
      assert acts[..i] == acts[..i - 1] + [acts[i - 1]];
    }
  }

  lemma NothingComputed(g: Dag, s: State, m: nat)
    requires Init(g, s) && m < |g.succ|
    ensures |s.status| == |g.succ| && !HasResult(s.status[m])
  {
  }

  /** A node is computed once, after all its ancestors. */
  lemma ComputedOnceInOrder(g: Dag, op: Op, rank: seq<nat>, states: seq<State>, acts: seq<Action>, i: nat, b: nat)
    requires Ranked(g, rank) && Execution(g, op, states, acts) && i < |acts| && acts[i] == Compute(b) && b < |g.succ|
    ensures Compute(b) !in acts[..i]
    ensures forall a: nat :: a < |g.succ| && Ancestor(g, a, b) ==> Compute(a) in acts[..i]
  {
    hide Ranked, Inv, Do, Init, Ancestor;
    AlwaysInv(g, op, rank, states, acts, i);
    InvRanked(g, op, rank, states[i]);
    ComputedExactlyIf(g, op, rank, states, acts, i, b);
    assert Enabled(g, states[i], acts[i]);
    StepComputes(g, op, rank, states[i], acts[i], b);
    forall a: nat | a < |g.succ| && Ancestor(g, a, b)
      ensures Compute(a) in acts[..i]
    {
      ComputedExactlyIf(g, op, rank, states, acts, i, a);
      AncestorHasResult(g, op, rank, states[i], a, b);
    }
  }

  lemma AncestorHasResult(g: Dag, op: Op, rank: seq<nat>, s: State, a: nat, b: nat)
    requires Inv(g, op, rank, s) && Ancestor(g, a, b) && b < |s.status| && !s.status[b].Waiting?
    ensures a < |s.status| && HasResult(s.status[a])
  {
    hide Inv;
    var k: nat :| k > 0 && Leads(g, a, b, k);
    AncestorsComputed(g, op, rank, s, a, b, k);
  }
}
