/** Every step of every thread keeps the executor's counters in agreement. */
module ParallelInvariant {
  import opened Wrappers
  import opened Counting
  import opened ParallelExecutor

  lemma UnreleasedUpdate(g: Dag, status: seq<Status>, m: nat, x: Status, n: nat)
    requires |status| == |g.succ| && m < |status|
    ensures Unreleased(g, status[m := x], n) ==
            Unreleased(g, status, n) - EdgesLeft(g, m, status[m], n) + EdgesLeft(g, m, x, n)
  {
    hide EdgesLeft, Sum;
    assert Holding(g, status[m := x], n) == Holding(g, status, n)[m := EdgesLeft(g, m, x, n)];
    SumUpdate(Holding(g, status, n), m, EdgesLeft(g, m, x, n));
  }

  lemma ChainsUpdate(status: seq<Status>, m: nat, x: Status)
    requires m < |status|
    ensures Sum(Chains(status[m := x])) ==
            Sum(Chains(status)) - (if Active(status[m]) then 1 else 0) + if Active(x) then 1 else 0
  {
    hide Sum;
    assert Chains(status[m := x]) == Chains(status)[m := if Active(x) then 1 else 0];
    SumUpdate(Chains(status), m, if Active(x) then 1 else 0);
  }

  lemma HoldingAtLeast(g: Dag, status: seq<Status>, m: nat, n: nat)
    requires |status| == |g.succ| && m < |status|
    ensures 0 <= EdgesLeft(g, m, status[m], n) <= Unreleased(g, status, n)
  {
    forall k | 0 <= k < |status|
      ensures Holding(g, status, n)[k] >= 0
    {
    }
    SumAtLeast(Holding(g, status, n), m);
  }

  /** Releasing the next edge of m takes one edge away from its target and none from anybody else. */
  lemma NextEdge(g: Dag, m: nat, done: nat, c: Option<nat>, c': Option<nat>, n: nat)
    requires m < |g.succ| && done < |g.succ[m]|
    ensures EdgesLeft(g, m, Releasing(done, c), n) ==
            EdgesLeft(g, m, Releasing(done + 1, c'), n) + if g.succ[m][done] == n then 1 else 0
  {
    assert g.succ[m][done..][1..] == g.succ[m][done + 1..];
  }

  lemma FirstEdge(g: Dag, m: nat, n: nat)
    requires m < |g.succ|
    ensures EdgesLeft(g, m, Releasing(0, None), n) == CountOf(g.succ[m], n)
  {
    assert g.succ[m][0..] == g.succ[m];
  }

  lemma TargetIsNoRoot(g: Dag, m: nat, d: nat)
    requires m < |g.succ| && d in g.succ[m]
    ensures !IsRoot(g, d)
  {
    HoldingAtLeast(g, AllWaiting(g), m, d);
    CountOfZero(g.succ[m], d);
  }

  /** The target of the edge being released is waiting for it. */
  lemma TargetWaits(g: Dag, s: State, n: nat)
    requires Sized(g, s) && RefsExact(g, s) && WaitingOk(g, s) && Enabled(g, s, ReleaseEdge(n))
    ensures var d := g.succ[n][s.status[n].done];
            d < |s.status| && d != n && s.status[d].Waiting? && s.refs[d] >= 1
  {
    var st := s.status[n];
    var d := g.succ[n][st.done];
    NextEdge(g, n, st.done, st.claimed, st.claimed, d);
    HoldingAtLeast(g, s.status, n, d);
    assert EdgesLeft(g, n, Releasing(st.done + 1, st.claimed), d) >= 0;
    assert s.refs[d] >= 1;
  }

  /** A claim points at a claimed node. */
  ghost predicate ClaimsOk(s: State) {
    forall n :: 0 <= n < |s.status| && s.status[n].Releasing? && s.status[n].claimed.Some? ==>
      s.status[n].claimed.value < |s.status| && s.status[s.status[n].claimed.value].Claimed?
  }

  lemma UnlockRefs(g: Dag, op: Op, s: State, n: nat, k: nat)
    requires Sized(g, s) && ClaimsOk(s) && Enabled(g, s, Unlock(n))
    ensures Unreleased(g, Do(g, op, s, Unlock(n)).status, k) == Unreleased(g, s.status, k)
  {
    hide Unreleased;
    var next := s.status[n].claimed;
    assert g.succ[n][|g.succ[n]|..] == [];
    UnreleasedUpdate(g, s.status, n, Finished, k);
    UnreleasedUpdate(g, s.status, n, Draining, k);
    if next.Some? { UnreleasedUpdate(g, s.status[n := Finished], next.value, Running, k); }
  }

  lemma RootWaits(g: Dag, s: State)
    requires Sized(g, s) && WaitingOk(g, s) && s.rootsLeft != []
    ensures s.status[s.rootsLeft[0]].Waiting? && s.refs[s.rootsLeft[0]] == 0
  {
  }

  lemma MoveRefs(g: Dag, op: Op, s: State, a: Action, k: nat)
    requires Sized(g, s) && WaitingOk(g, s) && Enabled(g, s, a) && !a.ReleaseEdge? && !a.Unlock?
    ensures Unreleased(g, Do(g, op, s, a).status, k) == Unreleased(g, s.status, k)
  {
    hide Unreleased, WaitingOk;
    match a
    case EnqueueRoot =>
      RootWaits(g, s);
      UnreleasedUpdate(g, s.status, s.rootsLeft[0], Queued, k);
    case Start(n) => UnreleasedUpdate(g, s.status, n, Running, k);
    case Compute(n) => UnreleasedUpdate(g, s.status, n, Computed, k);
    case Throw(n) => UnreleasedUpdate(g, s.status, n, Throwing, k);
    case Lock(n) => UnreleasedUpdate(g, s.status, n, Releasing(0, None), k); FirstEdge(g, n, k);
    case EndChain(n) => UnreleasedUpdate(g, s.status, n, Finished, k);
    case EndThrow(n) => UnreleasedUpdate(g, s.status, n, Failed, k);
  }

  lemma StepRefs(g: Dag, op: Op, s: State, a: Action)
    requires Sized(g, s) && RefsExact(g, s) && WaitingOk(g, s) && ClaimsOk(s) && Enabled(g, s, a)
    ensures var s' := Do(g, op, s, a); |s'.status| == |s'.refs| == |g.succ| && RefsExact(g, s')
  {
    hide Unreleased, WaitingOk, ClaimsOk;
    var s' := Do(g, op, s, a);
    forall k | 0 <= k < |s.refs|
      ensures s'.refs[k] == Unreleased(g, s'.status, k)
    {
      match a
      case ReleaseEdge(n) => ReleaseRefs(g, s, n, k);
      case Unlock(n) => UnlockRefs(g, op, s, n, k);
      case _ => MoveRefs(g, op, s, a, k);
    }
  }

  lemma ReleaseRefs(g: Dag, s: State, n: nat, k: nat)
    requires Sized(g, s) && RefsExact(g, s) && WaitingOk(g, s) && Enabled(g, s, ReleaseEdge(n)) && k < |s.refs|
    ensures ReleaseOne(g, s, n).refs[k] == Unreleased(g, ReleaseOne(g, s, n).status, k)
  {
    var st := s.status[n];
    var d := g.succ[n][st.done];
    TargetWaits(g, s, n);
    NextEdge(g, n, st.done, st.claimed, st.claimed, k);
    NextEdge(g, n, st.done, st.claimed, Some(d), k);
    UnreleasedUpdate(g, s.status, n, Releasing(st.done + 1, st.claimed), k);
    UnreleasedUpdate(g, s.status, d, Claimed, k);
    UnreleasedUpdate(g, s.status, d, Queued, k);
    UnreleasedUpdate(g, s.status[d := Claimed], n, Releasing(st.done + 1, Some(d)), k);
    UnreleasedUpdate(g, s.status[d := Queued], n, Releasing(st.done + 1, st.claimed), k);
  }

  lemma ReleaseCounter(g: Dag, op: Op, s: State, n: nat)
    requires Sized(g, s) && RefsExact(g, s) && WaitingOk(g, s) && CounterOk(s) && Enabled(g, s, ReleaseEdge(n))
    ensures CounterOk(Do(g, op, s, ReleaseEdge(n)))
  {
    hide Sum, RefsExact, WaitingOk, Chains;
    var st := s.status[n];
    var d := g.succ[n][st.done];
    TargetWaits(g, s, n);
    ChainsUpdate(s.status, n, Releasing(st.done + 1, st.claimed));
    ChainsUpdate(s.status, d, Claimed);
    ChainsUpdate(s.status, d, Queued);
    ChainsUpdate(s.status[d := Claimed], n, Releasing(st.done + 1, Some(d)));
    ChainsUpdate(s.status[d := Queued], n, Releasing(st.done + 1, st.claimed));
  }

  lemma UnlockCounter(g: Dag, op: Op, s: State, n: nat)
    requires Sized(g, s) && ClaimsOk(s) && CounterOk(s) && Enabled(g, s, Unlock(n))
    ensures CounterOk(Do(g, op, s, Unlock(n)))
  {
    hide Sum, Chains;
    var next := s.status[n].claimed;
    ChainsUpdate(s.status, n, Finished);
    ChainsUpdate(s.status, n, Draining);
    if next.Some? { ChainsUpdate(s.status[n := Finished], next.value, Running); }
  }

  lemma StepCounter(g: Dag, op: Op, s: State, a: Action)
    requires Sized(g, s) && RefsExact(g, s) && WaitingOk(g, s) && ClaimsOk(s) && CounterOk(s) && Enabled(g, s, a)
    ensures CounterOk(Do(g, op, s, a))
  {
    hide Sum, RefsExact, Chains, ReleaseOne, ClaimsOk, IsRoot;
    match a
    case EnqueueRoot => ChainsUpdate(s.status, s.rootsLeft[0], Queued);
    case Start(n) => ChainsUpdate(s.status, n, Running);
    case Compute(n) => ChainsUpdate(s.status, n, Computed);
    case Throw(n) => ChainsUpdate(s.status, n, Throwing);
    case Lock(n) => ChainsUpdate(s.status, n, Releasing(0, None));
    case ReleaseEdge(n) => ReleaseCounter(g, op, s, n);
    case Unlock(n) => UnlockCounter(g, op, s, n);
    case EndChain(n) => ChainsUpdate(s.status, n, Finished);
    case EndThrow(n) => ChainsUpdate(s.status, n, Failed);
  }

  lemma EnqueueWaiting(g: Dag, op: Op, s: State)
    requires Sized(g, s) && WaitingOk(g, s) && s.rootsLeft != []
    ensures Sized(g, Do(g, op, s, EnqueueRoot)) && WaitingOk(g, Do(g, op, s, EnqueueRoot))
  {
    hide IsRoot;
    var s' := Do(g, op, s, EnqueueRoot);
    assert forall i :: 0 <= i < |s'.rootsLeft| ==> s'.rootsLeft[i] == s.rootsLeft[i + 1];
    assert forall n :: n in s.rootsLeft ==> n == s.rootsLeft[0] || n in s'.rootsLeft;
    assert IsRoot(g, s.rootsLeft[0]) by { assert s.status[s.rootsLeft[0]].Waiting? && s.refs[s.rootsLeft[0]] == 0; }
  }

  /** What releasing one edge from n to d changes. */
  lemma ReleaseShape(g: Dag, op: Op, s: State, n: nat, d: nat)
    requires Sized(g, s) && Enabled(g, s, ReleaseEdge(n)) && d == g.succ[n][s.status[n].done] && d != n
             && s.status[d].Waiting?
    ensures var s' := Do(g, op, s, ReleaseEdge(n));
            && |s'.status| == |s.status| && s'.refs == s.refs[d := s.refs[d] - 1]
            && s'.rootsLeft == s.rootsLeft && s'.results == s.results
            && s'.status[n].Releasing? && s'.status[n].done == s.status[n].done + 1
            && (forall m :: 0 <= m < |s.status| && m != n && m != d ==> s'.status[m] == s.status[m])
            && (s'.refs[d] != 0 ==> s'.status[d].Waiting? && s'.status[n].claimed == s.status[n].claimed)
            && (s'.refs[d] == 0 && s.status[n].claimed.None? ==>
                  s'.status[d].Claimed? && s'.status[n].claimed == Some(d))
            && (s'.refs[d] == 0 && s.status[n].claimed.Some? ==>
                  s'.status[d].Queued? && s'.status[n].claimed == s.status[n].claimed)
  {
  }

  lemma ReleaseWaiting(g: Dag, op: Op, s: State, n: nat)
    requires Sized(g, s) && RefsExact(g, s) && WaitingOk(g, s) && Enabled(g, s, ReleaseEdge(n))
    ensures Sized(g, Do(g, op, s, ReleaseEdge(n))) && WaitingOk(g, Do(g, op, s, ReleaseEdge(n)))
  {
    TargetWaits(g, s, n);
    ReleaseShape(g, op, s, n, g.succ[n][s.status[n].done]);
    TargetIsNoRoot(g, n, g.succ[n][s.status[n].done]);
    hide RefsExact, IsRoot, Do, ReleaseOne;
  }

  lemma UnlockWaiting(g: Dag, op: Op, s: State, n: nat)
    requires Sized(g, s) && RefsExact(g, s) && WaitingOk(g, s) && ClaimsOk(s) && Enabled(g, s, Unlock(n))
    ensures Sized(g, Do(g, op, s, Unlock(n))) && WaitingOk(g, Do(g, op, s, Unlock(n)))
  {
    hide IsRoot, RefsExact;
    var s', next := Do(g, op, s, Unlock(n)), s.status[n].claimed;
    assert s'.refs == s.refs && s'.rootsLeft == s.rootsLeft && s'.results == s.results;
    assert forall m :: 0 <= m < |s.status| && m != n && next != Some(m) ==> s'.status[m] == s.status[m];
    assert !s'.status[n].Waiting? && !s'.status[n].Releasing?;
    assert next.Some? ==> !s.status[next.value].Waiting? && s'.status[next.value].Running?;
    hide Do, Enabled, ClaimsOk;
  }

  lemma MoveWaiting(g: Dag, op: Op, s: State, a: Action)
    requires Sized(g, s) && WaitingOk(g, s) && Enabled(g, s, a)
    requires !a.ReleaseEdge? && !a.Unlock? && !a.EnqueueRoot?
    ensures Sized(g, Do(g, op, s, a)) && WaitingOk(g, Do(g, op, s, a))
  {
    hide IsRoot;
    var s' := Do(g, op, s, a);
    assert s'.refs == s.refs && s'.rootsLeft == s.rootsLeft && s'.status == s.status[a.n := s'.status[a.n]];
    assert !s.status[a.n].Waiting? && !s'.status[a.n].Waiting?;
    hide Do, Enabled;
  }

  lemma StepWaiting(g: Dag, op: Op, s: State, a: Action)
    requires Sized(g, s) && RefsExact(g, s) && WaitingOk(g, s) && ClaimsOk(s) && Enabled(g, s, a)
    ensures Sized(g, Do(g, op, s, a)) && WaitingOk(g, Do(g, op, s, a))
  {
    match a
    case EnqueueRoot => EnqueueWaiting(g, op, s);
    case ReleaseEdge(n) => ReleaseWaiting(g, op, s, n);
    case Unlock(n) => UnlockWaiting(g, op, s, n);
    case _ => MoveWaiting(g, op, s, a);
  }

  lemma ReleaseLock(g: Dag, op: Op, s: State, n: nat)
    requires Sized(g, s) && RefsExact(g, s) && WaitingOk(g, s) && LockOk(s) && Enabled(g, s, ReleaseEdge(n))
    ensures LockOk(Do(g, op, s, ReleaseEdge(n)))
  {
    TargetWaits(g, s, n);
    ReleaseShape(g, op, s, n, g.succ[n][s.status[n].done]);
    hide RefsExact, WaitingOk, Do, ReleaseOne;
    var s' := Do(g, op, s, ReleaseEdge(n));
    forall d | 0 <= d < |s'.status| && s'.status[d].Claimed?
      ensures s'.status[n].claimed == Some(d)
    {
      if s.status[d].Claimed? {
        var m :| 0 <= m < |s.status| && s.status[m].Releasing? && s.status[m].claimed == Some(d);
        assert m == n;
      }
    }
  }

  lemma UnlockLock(g: Dag, op: Op, s: State, n: nat)
    requires Sized(g, s) && LockOk(s) && Enabled(g, s, Unlock(n))
    ensures LockOk(Do(g, op, s, Unlock(n)))
  {
    var s' := Do(g, op, s, Unlock(n));
    forall d | 0 <= d < |s.status| && s.status[d].Claimed?
      ensures s.status[n].claimed == Some(d)
    {
      var m :| 0 <= m < |s.status| && s.status[m].Releasing? && s.status[m].claimed == Some(d);
      assert m == n;
    }
  }

  lemma MoveLock(g: Dag, op: Op, s: State, a: Action)
    requires Sized(g, s) && WaitingOk(g, s) && LockOk(s) && Enabled(g, s, a) && !a.ReleaseEdge? && !a.Unlock?
    ensures LockOk(Do(g, op, s, a))
  {
    hide *;
    var n := MoveShape(g, op, s, a);
    LockMoved(s, Do(g, op, s, a), n);
  }

  /** Such a step changes the status of one node, which is neither claimed nor the lock holder before it. */
  lemma MoveShape(g: Dag, op: Op, s: State, a: Action) returns (n: nat)
    requires Sized(g, s) && WaitingOk(g, s) && Enabled(g, s, a) && !a.ReleaseEdge? && !a.Unlock?
    ensures var s' := Do(g, op, s, a);
            && n < |s.status| == |s'.status| && s'.status == s.status[n := s'.status[n]]
            && !s.status[n].Releasing? && !s.status[n].Claimed? && !s'.status[n].Claimed?
            && (s'.status[n].Releasing? ==>
                  s'.status[n].claimed.None? && forall m :: 0 <= m < |s.status| ==> !s.status[m].Releasing?)
  {
    if a.EnqueueRoot? { RootWaits(g, s); }
    hide WaitingOk;
    n := if a.EnqueueRoot? then s.rootsLeft[0] else a.n;
  }

  lemma LockMoved(s: State, s': State, n: nat)
    requires LockOk(s) && n < |s.status| == |s'.status| && s'.status == s.status[n := s'.status[n]]
    requires !s.status[n].Releasing? && !s.status[n].Claimed? && !s'.status[n].Claimed?
    requires s'.status[n].Releasing? ==>
               s'.status[n].claimed.None? && forall m :: 0 <= m < |s.status| ==> !s.status[m].Releasing?
    ensures LockOk(s')
  {
    forall d | 0 <= d < |s'.status| && s'.status[d].Claimed?
      ensures exists m :: 0 <= m < |s'.status| && s'.status[m].Releasing? && s'.status[m].claimed == Some(d)
    {
      var m :| 0 <= m < |s.status| && s.status[m].Releasing? && s.status[m].claimed == Some(d);
      assert s'.status[m] == s.status[m];
    }
  }

  lemma StepLock(g: Dag, op: Op, s: State, a: Action)
    requires Sized(g, s) && RefsExact(g, s) && WaitingOk(g, s) && LockOk(s) && Enabled(g, s, a)
    ensures LockOk(Do(g, op, s, a))
  {
    match a
    case ReleaseEdge(n) => ReleaseLock(g, op, s, n);
    case Unlock(n) => UnlockLock(g, op, s, n);
    case _ => MoveLock(g, op, s, a);
  }

  /** A node that has left the waiting state has only predecessors whose results are there. */
  lemma PredecessorsComputed(g: Dag, s: State, m: nat, n: nat)
    requires Sized(g, s) && RefsExact(g, s) && WaitingOk(g, s)
    requires n < |s.status| && !s.status[n].Waiting? && m < |s.status| && n in g.succ[m]
    ensures s.status[m].Releasing? || s.status[m].Draining? || s.status[m].Finished?
  {
    HoldingAtLeast(g, s.status, m, n);
    CountOfZero(g.succ[m], n);
  }

  lemma StepResults(g: Dag, op: Op, rank: seq<nat>, s: State, a: Action)
    requires Inv(g, op, rank, s) && Enabled(g, s, a)
    ensures var s' := Do(g, op, s, a); |s'.status| == |s'.results| == |g.succ| && ResultsOk(g, op, rank, s')
  {
    hide RefsExact, CounterOk, IsRoot, Eval, ReleaseOne;
    match a
    case Compute(n) => ComputeIsEval(g, op, rank, s, n);
    case ReleaseEdge(n) => ReleaseResults(g, op, rank, s, n);
    case _ =>
  }

  lemma ReleaseResults(g: Dag, op: Op, rank: seq<nat>, s: State, n: nat)
    requires Sized(g, s) && RefsExact(g, s) && WaitingOk(g, s) && Enabled(g, s, ReleaseEdge(n))
    requires Ranked(g, rank) && ResultsOk(g, op, rank, s)
    ensures var s' := Do(g, op, s, ReleaseEdge(n));
            |s'.status| == |s'.results| == |g.succ| && ResultsOk(g, op, rank, s')
  {
    hide RefsExact, WaitingOk, Eval, Do, Ranked;
    TargetWaits(g, s, n);
    ReleaseShape(g, op, s, n, g.succ[n][s.status[n].done]);
  }

  lemma ComputeIsEval(g: Dag, op: Op, rank: seq<nat>, s: State, n: nat)
    requires Inv(g, op, rank, s) && Enabled(g, s, Compute(n))
    ensures op(n, Inputs(g, s.results, n)) == Eval(g, op, rank, n)
  {
    forall m | 0 <= m < |g.succ| && n in g.succ[m]
      ensures s.results[m] == Some(Eval(g, op, rank, m))
    {
      PredecessorsComputed(g, s, m, n);
    }
    hide Inv, RefsExact, WaitingOk, LockOk, CounterOk;
    assert Inputs(g, s.results, n) == EvalInputs(g, op, rank, n, |g.succ|);
  }

  lemma StepInv(g: Dag, op: Op, rank: seq<nat>, s: State, a: Action)
    requires Inv(g, op, rank, s) && Enabled(g, s, a)
    ensures Inv(g, op, rank, Do(g, op, s, a))
  {
    StepRefs(g, op, s, a);
    StepWaiting(g, op, s, a);
    StepLock(g, op, s, a);
    StepCounter(g, op, s, a);
    StepResults(g, op, rank, s, a);
    hide RefsExact, WaitingOk, LockOk, CounterOk, ResultsOk, Do, Enabled;
  }

  lemma InitInv(g: Dag, op: Op, rank: seq<nat>, s: State)
    requires Ranked(g, rank) && Init(g, s)
    ensures Inv(g, op, rank, s)
  {
    assert s.status == AllWaiting(g);
    SumZero(Chains(s.status));
    forall i | 0 <= i < |s.rootsLeft|
      ensures s.rootsLeft[i] < |g.succ| && s.status[s.rootsLeft[i]].Waiting? && s.refs[s.rootsLeft[i]] == 0
    {
      assert s.rootsLeft[i] in s.rootsLeft;
    }
    hide Sum;
  }
}
