/** What holds of every interleaving of the parallel executor's threads. */
module ParallelTheorems {
  import opened Wrappers
  import opened Counting
  import opened ParallelExecutor
  import opened ParallelInvariant

  /** A finite piece of an execution: the states passed through and the steps between them. */
  ghost predicate Execution(g: Dag, op: Op, states: seq<State>, acts: seq<Action>) {
    && |states| == |acts| + 1 && Init(g, states[0])
    && forall i :: 0 <= i < |acts| ==>
         Sized(g, states[i]) && Enabled(g, states[i], acts[i]) && states[i + 1] == Do(g, op, states[i], acts[i])
  }

  lemma {:induction false} AlwaysInv(g: Dag, op: Op, rank: seq<nat>, states: seq<State>, acts: seq<Action>, i: nat)
    requires Ranked(g, rank) && Execution(g, op, states, acts) && i < |states|
    ensures Inv(g, op, rank, states[i])
  {
    hide Inv, Do, Enabled, Init, Ranked;
    if i == 0 {
      InitInv(g, op, rank, states[0]);
    } else {
      AlwaysInv(g, op, rank, states, acts, i - 1);
      StepInv(g, op, rank, states[i - 1], acts[i - 1]);
    }
  }

  // ----- reference counts

  ghost function UnfinishedEdges(g: Dag, status: seq<Status>, n: nat): int
    requires |status| == |g.succ|
  {
    Sum(seq(|status|, m requires 0 <= m < |status| =>
              if status[m].Draining? || status[m].Finished? then 0 else CountOf(g.succ[m], n)))
  }

  /** Whenever nobody holds the reference lock, node_refs_[n] is the number of input edges from unfinished nodes. */
  lemma RefsCountUnfinished(g: Dag, op: Op, rank: seq<nat>, states: seq<State>, acts: seq<Action>, i: nat, n: nat)
    requires Ranked(g, rank) && Execution(g, op, states, acts) && i < |states| && n < |g.succ|
    requires forall m :: 0 <= m < |states[i].status| ==> !states[i].status[m].Releasing?
    ensures |states[i].status| == |states[i].refs| == |g.succ|
            && states[i].refs[n] == UnfinishedEdges(g, states[i].status, n)
  {
    AlwaysInv(g, op, rank, states, acts, i);
    var status := states[i].status;
    assert Holding(g, status, n) ==
           seq(|status|, m requires 0 <= m < |status| =>
                 if status[m].Draining? || status[m].Finished? then 0 else CountOf(g.succ[m], n));
  }

  // ----- each node at most once, after its predecessors

  /** How far a node has got. */
  function Progress(g: Dag, n: nat, st: Status): nat
    requires n < |g.succ|
  {
    match st
    case Waiting => 0
    case Queued => 1
    case Claimed => 1
    case Running => 2
    case Computed => 3
    case Throwing => 3
    case Failed => 4
    case Releasing(done, _) => 4 + done
    case Draining => 5 + |g.succ[n]|
    case Finished => 6 + |g.succ[n]|
  }

  /** The transitions a single node can make. */
  ghost predicate May(g: Dag, n: nat, st: Status, st': Status)
    requires n < |g.succ|
  {
    || st' == st
    || (st.Waiting? && (st'.Queued? || st'.Claimed?))
    || ((st.Queued? || st.Claimed?) && st'.Running?)
    || (st.Running? && (st'.Computed? || st'.Throwing?))
    || (st.Computed? && st'.Releasing?)
    || (st.Releasing? && st'.Releasing? && st'.done == st.done + 1)
    || (st.Releasing? && st.done == |g.succ[n]| && (st'.Draining? || st'.Finished?))
    || (st.Draining? && st'.Finished?)
    || (st.Throwing? && st'.Failed?)
  }

  lemma SimpleMoves(g: Dag, op: Op, s: State, a: Action, k: nat)
    requires Sized(g, s) && Enabled(g, s, a) && !a.EnqueueRoot? && !a.ReleaseEdge? && !a.Unlock? && k < |s.status|
    ensures |Do(g, op, s, a).status| == |s.status| && May(g, k, s.status[k], Do(g, op, s, a).status[k])
    ensures a.n < |s.status| && Do(g, op, s, a).status[a.n] != s.status[a.n]
  {
  }

  lemma UnlockMoves(g: Dag, op: Op, s: State, n: nat, k: nat)
    requires Sized(g, s) && ClaimsOk(s) && Enabled(g, s, Unlock(n)) && k < |s.status|
    ensures |Do(g, op, s, Unlock(n)).status| == |s.status| && May(g, k, s.status[k], Do(g, op, s, Unlock(n)).status[k])
    ensures Do(g, op, s, Unlock(n)).status[n] != s.status[n]
  {
  }

  /** The node whose progress a step advances. */
  ghost function Mover(s: State, a: Action): nat
    requires a.EnqueueRoot? ==> s.rootsLeft != []
  {
    if a.EnqueueRoot? then s.rootsLeft[0] else a.n
  }

  /** A step moves each node along one of these transitions, and moves its own node or uses up a root. */
  lemma StepMoves(g: Dag, op: Op, s: State, a: Action, k: nat)
    requires Sized(g, s) && RefsExact(g, s) && WaitingOk(g, s) && LockOk(s) && Enabled(g, s, a) && k < |s.status|
    ensures |Do(g, op, s, a).status| == |s.status| && May(g, k, s.status[k], Do(g, op, s, a).status[k])
    ensures Mover(s, a) < |s.status| && |Do(g, op, s, a).rootsLeft| <= |s.rootsLeft|
    ensures Do(g, op, s, a).status[Mover(s, a)] != s.status[Mover(s, a)]
            || (Do(g, op, s, a).status == s.status && |Do(g, op, s, a).rootsLeft| < |s.rootsLeft|)
  {
    assert ClaimsOk(s);
    hide RefsExact, LockOk, ClaimsOk, May;
    match a
    case EnqueueRoot => RootWaits(g, s); EnqueueMoves(g, op, s, k);
    case ReleaseEdge(n) => ReleaseMoves(g, op, s, n, k);
    case Unlock(n) => UnlockMoves(g, op, s, n, k);
    case _ => SimpleMoves(g, op, s, a, k);
  }

  lemma EnqueueMoves(g: Dag, op: Op, s: State, k: nat)
    requires Sized(g, s) && s.rootsLeft != [] && s.status[s.rootsLeft[0]].Waiting? && k < |s.status|
    ensures var s' := Do(g, op, s, EnqueueRoot);
            && |s'.status| == |s.status| && May(g, k, s.status[k], s'.status[k])
            && (s'.status[s.rootsLeft[0]] != s.status[s.rootsLeft[0]] || s'.status == s.status)
            && |s'.rootsLeft| < |s.rootsLeft|
  {
  }

  lemma ReleaseMoves(g: Dag, op: Op, s: State, n: nat, k: nat)
    requires Sized(g, s) && RefsExact(g, s) && WaitingOk(g, s) && Enabled(g, s, ReleaseEdge(n)) && k < |s.status|
    ensures var s' := Do(g, op, s, ReleaseEdge(n));
            && |s'.status| == |s.status| && May(g, k, s.status[k], s'.status[k])
            && s'.status[n] != s.status[n] && s'.rootsLeft == s.rootsLeft
  {
    TargetWaits(g, s, n);
    ReleaseShape(g, op, s, n, g.succ[n][s.status[n].done]);
    hide RefsExact, WaitingOk, Do, ReleaseOne;
  }

  lemma StepProgress(g: Dag, op: Op, rank: seq<nat>, s: State, a: Action, k: nat)
    requires Inv(g, op, rank, s) && Enabled(g, s, a) && k < |s.status|
    ensures |Do(g, op, s, a).status| == |s.status| == |g.succ|
    ensures Progress(g, k, s.status[k]) <= Progress(g, k, Do(g, op, s, a).status[k])
    ensures s.status[k] != Do(g, op, s, a).status[k] ==>
              Progress(g, k, s.status[k]) < Progress(g, k, Do(g, op, s, a).status[k])
  {
    hide *;
    InvParts(g, op, rank, s);
    StepMoves(g, op, s, a, k);
    MayProgress(g, k, s.status[k], Do(g, op, s, a).status[k]);
  }

  lemma InvParts(g: Dag, op: Op, rank: seq<nat>, s: State)
    requires Inv(g, op, rank, s)
    ensures Sized(g, s) && RefsExact(g, s) && WaitingOk(g, s) && LockOk(s) && |s.status| == |g.succ| == |rank|
  {
    hide RefsExact, WaitingOk, LockOk, CounterOk, ResultsOk;
  }

  lemma MayProgress(g: Dag, n: nat, st: Status, st': Status)
    requires n < |g.succ| && May(g, n, st, st')
    ensures st == st' || Progress(g, n, st) < Progress(g, n, st')
  {
  }

  lemma {:induction false} ProgressGrows(g: Dag, op: Op, rank: seq<nat>, states: seq<State>, acts: seq<Action>, i: nat,
                                         j: nat, n: nat)
    requires Ranked(g, rank) && Execution(g, op, states, acts) && i <= j < |states| && n < |g.succ|
    ensures |states[i].status| == |states[j].status| == |g.succ|
    ensures Progress(g, n, states[i].status[n]) <= Progress(g, n, states[j].status[n])
    decreases j
  {
    hide Inv, Do, Enabled, Progress, Ranked, Init;
    AlwaysInv(g, op, rank, states, acts, i);
    InvParts(g, op, rank, states[i]);
    if i < j {
      ProgressGrows(g, op, rank, states, acts, i, j - 1, n);
      AlwaysInv(g, op, rank, states, acts, j - 1);
      StepProgress(g, op, rank, states[j - 1], acts[j - 1], n);
    }
  }

  /** Step i is the one in which node n starts to run. */
  ghost predicate StartsAt(states: seq<State>, i: nat, n: nat)
    requires i + 1 < |states| && n < |states[i].status| && n < |states[i + 1].status|
  {
    !states[i].status[n].Running? && states[i + 1].status[n].Running?
  }

  lemma StartsFromBelow(g: Dag, op: Op, rank: seq<nat>, s: State, a: Action, n: nat)
    requires Inv(g, op, rank, s) && Enabled(g, s, a) && n < |s.status| && n < |Do(g, op, s, a).status|
    requires !s.status[n].Running? && Do(g, op, s, a).status[n].Running?
    ensures s.status[n].Queued? || s.status[n].Claimed?
  {
    StepMoves(g, op, s, a, n);
    hide Inv, Do, Enabled;
  }

  /** Under every interleaving a node starts at most once. */
  lemma StartsOnce(g: Dag, op: Op, rank: seq<nat>, states: seq<State>, acts: seq<Action>, i: nat, j: nat, n: nat)
    requires Ranked(g, rank) && Execution(g, op, states, acts) && n < |g.succ|
    requires i + 1 < |states| && j + 1 < |states| && i < j
    requires |states[i].status| == |states[i + 1].status| == |states[j].status| == |states[j + 1].status| == |g.succ|
    requires StartsAt(states, i, n)
    ensures !StartsAt(states, j, n)
  {
    ProgressGrows(g, op, rank, states, acts, i + 1, j, n);
    AlwaysInv(g, op, rank, states, acts, j);
    if StartsAt(states, j, n) {
      StartsFromBelow(g, op, rank, states[j], acts[j], n);
    }
  }

  /** A running node finds the results of all its predecessors, and they are the right ones. */
  lemma RunsAfterPredecessors(g: Dag, op: Op, rank: seq<nat>, states: seq<State>, acts: seq<Action>, i: nat, m: nat,
                              n: nat)
    requires Ranked(g, rank) && Execution(g, op, states, acts) && i < |states|
    requires m < |g.succ| && n in g.succ[m]
    ensures n < |g.succ| && |states[i].status| == |states[i].results| == |g.succ|
    ensures states[i].status[n].Running? ==>
              (states[i].status[m].Releasing? || states[i].status[m].Draining? || states[i].status[m].Finished?)
              && states[i].results[m] == Some(Eval(g, op, rank, m))
  {
    AlwaysInv(g, op, rank, states, acts, i);
    RankGrows(g, rank, m, n);
    if states[i].status[n].Running? { PredecessorsComputed(g, states[i], m, n); }
  }

  // ----- the completion counter

  /** out_standings_ is the number of chains and never negative. */
  lemma CounterCountsChains(g: Dag, op: Op, rank: seq<nat>, states: seq<State>, acts: seq<Action>, i: nat)
    requires Ranked(g, rank) && Execution(g, op, states, acts) && i < |states|
    ensures states[i].outstanding == Sum(Chains(states[i].status)) >= 0
  {
    AlwaysInv(g, op, rank, states, acts, i);
    var chains := Chains(states[i].status);
    if |chains| > 0 { SumAtLeast(chains, 0); }
  }

  /** The step can be taken, and is no failure of a node that has a kernel. */
  ghost predicate Moves(g: Dag, s: State, a: Action) {
    Enabled(g, s, a) && (a.Throw? ==> a.n < |g.hasKernel| && !g.hasKernel[a.n])
  }

  /** The node that holds the reference lock goes on releasing. */
  lemma HolderMoves(g: Dag, s: State, m: nat)
    requires Sized(g, s) && WaitingOk(g, s) && m < |s.status| && s.status[m].Releasing?
    ensures exists a :: Moves(g, s, a)
  {
    assert Moves(g, s, if s.status[m].done < |g.succ[m]| then ReleaseEdge(m) else Unlock(m));
  }

  lemma ChainMoves(g: Dag, s: State, n: nat)
    requires Sized(g, s) && WaitingOk(g, s) && n < |s.status| && Active(s.status[n])
    ensures exists a :: Moves(g, s, a)
  {
    match s.status[n]
    case Queued => assert Moves(g, s, Start(n));
    case Running => assert Moves(g, s, if g.hasKernel[n] then Compute(n) else Throw(n));
    case Computed =>
      if m :| 0 <= m < |s.status| && s.status[m].Releasing? {
        HolderMoves(g, s, m);
      } else {
        assert Moves(g, s, Lock(n));
      }
    case Releasing(_, _) => HolderMoves(g, s, n);
    case Draining => assert Moves(g, s, EndChain(n));
    case Throwing => assert Moves(g, s, EndThrow(n));
  }

  /** While a chain is outstanding or a root is left, some thread can take a step without failing needlessly. */
  lemma NeverStuck(g: Dag, op: Op, rank: seq<nat>, s: State)
    requires Inv(g, op, rank, s) && (s.outstanding > 0 || s.rootsLeft != [])
    ensures exists a :: Moves(g, s, a)
  {
    if s.rootsLeft != [] {
      assert Moves(g, s, EnqueueRoot);
    } else {
      SumPositive(Chains(s.status));
      var n :| 0 <= n < |s.status| && Chains(s.status)[n] > 0;
      hide Moves, Sum;
      ChainMoves(g, s, n);
    }
  }

  /** Once the roots are enqueued and the counter is zero, no thread will ever take a step again. */
  lemma ZeroIsFinal(g: Dag, op: Op, rank: seq<nat>, s: State, a: Action)
    requires Inv(g, op, rank, s) && s.outstanding == 0 && s.rootsLeft == []
    ensures !Enabled(g, s, a)
  {
    forall n | 0 <= n < |s.status|
      ensures !Active(s.status[n])
    {
      SumAtLeast(Chains(s.status), n);
    }
  }

  // ----- termination

  ghost function Total(g: Dag, status: seq<Status>): (r: seq<int>)
    requires |status| == |g.succ|
    ensures |r| == |status| && forall n :: 0 <= n < |r| ==> r[n] == Progress(g, n, status[n])
  {
    seq(|status|, n requires 0 <= n < |status| => Progress(g, n, status[n]))
  }

  ghost function Most(g: Dag): (r: seq<int>)
    ensures |r| == |g.succ| && forall n :: 0 <= n < |r| ==> r[n] == 6 + |g.succ[n]|
  {
    seq(|g.succ|, n requires 0 <= n < |g.succ| => 6 + |g.succ[n]|)
  }

  lemma {:induction false} SumStrict(a: seq<int>, b: seq<int>, i: nat)
    requires i < |a| == |b| && a[i] < b[i] && forall k :: 0 <= k < |a| ==> a[k] <= b[k]
    ensures Sum(a) < Sum(b)
  {
    if i == 0 { SumMonotone(a[1..], b[1..]); } else { SumStrict(a[1..], b[1..], i - 1); }
  }

  lemma StepAdvances(g: Dag, op: Op, rank: seq<nat>, s: State, a: Action)
    requires Inv(g, op, rank, s) && Enabled(g, s, a)
    ensures |Do(g, op, s, a).status| == |g.succ|
    ensures Sum(Total(g, Do(g, op, s, a).status)) - |Do(g, op, s, a).rootsLeft| >=
            Sum(Total(g, s.status)) - |s.rootsLeft| + 1
  {
    var s' := Do(g, op, s, a);
    var n := Mover(s, a);
    assert n < |s.status|;
    StepMoves(g, op, s, a, n);
    hide Do, Inv, Enabled, Sum, Progress, May;
    forall k | 0 <= k < |s.status|
      ensures Total(g, s.status)[k] <= Total(g, s'.status)[k]
      ensures s.status[k] != s'.status[k] ==> Total(g, s.status)[k] < Total(g, s'.status)[k]
    {
      StepProgress(g, op, rank, s, a, k);
    }
    if s'.status != s.status || |s'.rootsLeft| >= |s.rootsLeft| {
      SumStrict(Total(g, s.status), Total(g, s'.status), n);
    }
  }

  lemma {:induction false} RunAdvances(g: Dag, op: Op, rank: seq<nat>, states: seq<State>, acts: seq<Action>, i: nat)
    requires Ranked(g, rank) && Execution(g, op, states, acts) && i < |states|
    ensures |states[i].status| == |g.succ|
    ensures Sum(Total(g, states[i].status)) - |states[i].rootsLeft| >= i - |states[0].rootsLeft|
  {
    hide Inv, Do, Enabled, Sum, Ranked;
    AlwaysInv(g, op, rank, states, acts, i);
    InvParts(g, op, rank, states[i]);
    if i == 0 {
      SumZero(Total(g, states[0].status));
    } else {
      hide Init;
      RunAdvances(g, op, rank, states, acts, i - 1);
      AlwaysInv(g, op, rank, states, acts, i - 1);
      StepAdvances(g, op, rank, states[i - 1], acts[i - 1]);
    }
  }

  /** Every run ends: it has no more steps than the nodes, edges and roots of the graph account for. */
  lemma RunsAreFinite(g: Dag, op: Op, rank: seq<nat>, states: seq<State>, acts: seq<Action>)
    requires Ranked(g, rank) && Execution(g, op, states, acts)
    ensures |acts| <= Sum(Most(g)) + |states[0].rootsLeft|
  {
    RunAdvances(g, op, rank, states, acts, |acts|);
    var status := states[|acts|].status;
    AlwaysInv(g, op, rank, states, acts, |acts|);
    forall n | 0 <= n < |status|
      ensures Total(g, status)[n] <= Most(g)[n]
    {
    }
    hide Inv, Execution, Ranked, Sum;
    SumMonotone(Total(g, status), Most(g));
  }

  // ----- what has run when the counter is back at zero

  ghost predicate Quiet(s: State) {
    s.outstanding == 0 && s.rootsLeft == []
  }

  /** Some predecessor of n has not finished. */
  ghost predicate HeldBack(g: Dag, s: State, n: nat)
    requires |s.status| == |g.succ|
  {
    exists m :: 0 <= m < |g.succ| && n in g.succ[m] && !s.status[m].Finished?
  }

  lemma QuietStatus(g: Dag, op: Op, rank: seq<nat>, s: State, n: nat)
    requires Inv(g, op, rank, s) && Quiet(s) && n < |s.status|
    ensures s.status[n].Waiting? || s.status[n].Finished? || s.status[n].Failed?
  {
    forall m | 0 <= m < |s.status|
      ensures !Active(s.status[m])
    {
      SumAtLeast(Chains(s.status), m);
    }
    hide Sum, RefsExact, WaitingOk;
    assert !s.status[n].Claimed?;
  }

  /**
   When everything has drained, a node has not run exactly when it is a root without a kernel or something before it has
   not finished.
   */
  lemma NotRunExactlyWhenHeldBack(g: Dag, op: Op, rank: seq<nat>, s: State, n: nat)
    requires Inv(g, op, rank, s) && Quiet(s) && n < |s.status|
    ensures s.status[n].Waiting? <==> (IsRoot(g, n) && !g.hasKernel[n]) || HeldBack(g, s, n)
  {
    if HeldBack(g, s, n) {
      var m :| 0 <= m < |g.succ| && n in g.succ[m] && !s.status[m].Finished?;
      QuietStatus(g, op, rank, s, m);
      HoldingAtLeast(g, s.status, m, n);
      CountOfZero(g.succ[m], n);
    } else if s.status[n].Waiting? && s.refs[n] != 0 {
      HoldingSum(g, s, n);
      var m :| 0 <= m < |s.status| && Holding(g, s.status, n)[m] > 0;
      QuietStatus(g, op, rank, s, m);
      CountOfZero(g.succ[m], n);
    }
  }

  lemma HoldingSum(g: Dag, s: State, n: nat)
    requires Sized(g, s) && RefsExact(g, s) && n < |s.status| && s.refs[n] != 0
    ensures exists m :: 0 <= m < |s.status| && Holding(g, s.status, n)[m] > 0
  {
    HoldingAtLeast(g, s.status, n, n);
    SumPositive(Holding(g, s.status, n));
  }

  /** Without failures, and with a kernel for every node, everything has run and every result is there. */
  lemma {:induction false} AllHaveRun(g: Dag, op: Op, rank: seq<nat>, s: State, n: nat)
    requires Inv(g, op, rank, s) && Quiet(s) && n < |s.status| && n < |rank|
    requires forall m :: 0 <= m < |s.status| ==> g.hasKernel[m] && !s.status[m].Failed?
    ensures s.status[n].Finished? && s.results[n] == Some(Eval(g, op, rank, n))
    decreases rank[n]
  {
    forall m | 0 <= m < |g.succ| && n in g.succ[m]
      ensures s.status[m].Finished?
    {
      RankGrows(g, rank, m, n);
      AllHaveRun(g, op, rank, s, m);
    }
    NotRunExactlyWhenHeldBack(g, op, rank, s, n);
    QuietStatus(g, op, rank, s, n);
  }

  /** Any two failure-free runs of the same graph end with the same results, however they interleave. */
  lemma Deterministic(g: Dag, op: Op, rank: seq<nat>, s: State, t: State)
    requires Inv(g, op, rank, s) && Quiet(s)
             && (forall m :: 0 <= m < |s.status| ==> g.hasKernel[m] && !s.status[m].Failed?)
    requires Inv(g, op, rank, t) && Quiet(t)
             && (forall m :: 0 <= m < |t.status| ==> g.hasKernel[m] && !t.status[m].Failed?)
    ensures s.results == t.results
  {
    assert |s.results| == |t.results| == |s.status| == |t.status| == |rank|;
    forall n | 0 <= n < |s.results|
      ensures s.results[n] == t.results[n]
    {
      AllHaveRun(g, op, rank, s, n);
      AllHaveRun(g, op, rank, t, n);
    }
  }
}
