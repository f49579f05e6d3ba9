/**
 The parallel executor as interleaved steps of its threads.  A task chain is one thread
 working on one node at a time; the thread pool is an arbitrary scheduler.  Each step is
 one critical section (or one lock-free transition) of the executor.
 */
module ParallelExecutor {
  import opened Wrappers
  import opened Counting

  type Data = seq<int>

  /** succ[m] lists the targets of m's output edges, in order, once per edge. */
  datatype Dag = Dag(succ: seq<seq<nat>>, hasKernel: seq<bool>)

  datatype Status =
    | Waiting                                        // not released yet
    | Queued                                         // in the thread pool
    | Claimed                                        // next node of a chain that is still releasing edges
    | Running
    | Computed                                       // result written, reference lock not yet taken
    | Releasing(done: nat, claimed: Option<nat>)     // holds the reference lock
    | Draining                                       // chain ends here, counter not yet decremented
    | Finished
    | Throwing                                       // failed, counter not yet decremented
    | Failed

  datatype State = State(status: seq<Status>, refs: seq<int>, outstanding: int, rootsLeft: seq<nat>,
                         results: seq<Option<Data>>)

  // ----- sums over nodes

  ghost function Sum(s: seq<int>): int {
    if s == [] then 0 else s[0] + Sum(s[1..])
  }

  lemma {:induction false} SumUpdate(s: seq<int>, i: nat, v: int)
    requires i < |s|
    ensures Sum(s[i := v]) == Sum(s) - s[i] + v
  {
    if i == 0 {
      assert s[0 := v][1..] == s[1..];
    } else {
      assert s[i := v][1..] == s[1..][i - 1 := v];
      SumUpdate(s[1..], i - 1, v);
    }
  }

  lemma {:induction false} SumAtLeast(s: seq<int>, i: nat)
    requires i < |s| && forall k :: 0 <= k < |s| ==> s[k] >= 0
    ensures Sum(s) >= s[i] && Sum(s) >= 0
  {
    if i > 0 {
      SumAtLeast(s[1..], i - 1);
    } else if |s| > 1 {
      SumAtLeast(s[1..], 0);
    }
  }

  lemma {:induction false} SumZero(s: seq<int>)
    requires forall k :: 0 <= k < |s| ==> s[k] == 0
    ensures Sum(s) == 0
  {
    if s != [] { SumZero(s[1..]); }
  }

  lemma {:induction false} SumPositive(s: seq<int>)
    requires Sum(s) > 0
    ensures exists i :: 0 <= i < |s| && s[i] > 0
  {
    if s[0] <= 0 {
      SumPositive(s[1..]);
      var i :| 0 <= i < |s[1..]| && s[1..][i] > 0;
      assert s[i + 1] > 0;
    }
  }

  lemma {:induction false} SumMonotone(a: seq<int>, b: seq<int>)
    requires |a| == |b| && forall k :: 0 <= k < |a| ==> a[k] <= b[k]
    ensures Sum(a) <= Sum(b)
  {
    if a != [] { SumMonotone(a[1..], b[1..]); }
  }

  // ----- graph

  ghost predicate ValidDag(g: Dag) {
    && |g.hasKernel| == |g.succ|
    && forall m, k :: 0 <= m < |g.succ| && 0 <= k < |g.succ[m]| ==> g.succ[m][k] < |g.succ|
  }

  /** Output edges of a node in the given status that still hold back node n. */
  ghost function EdgesLeft(g: Dag, m: nat, st: Status, n: nat): int
    requires m < |g.succ|
  {
    match st
    case Draining => 0
    case Finished => 0
    case Releasing(done, _) => if done <= |g.succ[m]| then CountOf(g.succ[m][done..], n) else 0
    case _ => CountOf(g.succ[m], n)
  }

  ghost function Holding(g: Dag, status: seq<Status>, n: nat): (r: seq<int>)
    requires |status| == |g.succ|
    ensures |r| == |status|
    ensures forall m :: 0 <= m < |r| ==> r[m] == EdgesLeft(g, m, status[m], n)
  {
    seq(|status|, m requires 0 <= m < |status| => EdgesLeft(g, m, status[m], n))
  }

  /** Input edges of n whose source has not released them. */
  ghost function Unreleased(g: Dag, status: seq<Status>, n: nat): int
    requires |status| == |g.succ|
  {
    Sum(Holding(g, status, n))
  }

  ghost function AllWaiting(g: Dag): seq<Status> {
    seq(|g.succ|, _ => Waiting)
  }

  /** All input edges of n, the constructor's initial reference count. */
  ghost function InputEdges(g: Dag, n: nat): int {
    Unreleased(g, AllWaiting(g), n)
  }

  ghost predicate IsRoot(g: Dag, n: nat) {
    InputEdges(g, n) == 0
  }

  /** A chain the completion counter has to account for stands at this node. */
  predicate Active(st: Status) {
    st.Queued? || st.Running? || st.Computed? || st.Releasing? || st.Draining? || st.Throwing?
  }

  ghost function Chains(status: seq<Status>): (r: seq<int>)
    ensures |r| == |status| && forall n :: 0 <= n < |r| ==> r[n] == if Active(status[n]) then 1 else 0
  {
    seq(|status|, n requires 0 <= n < |status| => if Active(status[n]) then 1 else 0)
  }

  predicate HasResult(st: Status) {
    st.Computed? || st.Releasing? || st.Draining? || st.Finished?
  }

  // ----- what a node computes: a function of its predecessors' results

  type Op = (nat, seq<Option<Data>>) -> Data

  ghost predicate Ranked(g: Dag, rank: seq<nat>) {
    && |rank| == |g.succ| && ValidDag(g)
    && forall m, k :: 0 <= m < |g.succ| && 0 <= k < |g.succ[m]| ==> rank[m] < rank[g.succ[m][k]]
  }

  lemma RankGrows(g: Dag, rank: seq<nat>, m: nat, n: nat)
    requires Ranked(g, rank) && m < |g.succ| && n in g.succ[m]
    ensures n < |rank| && rank[m] < rank[n]
  {
    var k :| 0 <= k < |g.succ[m]| && g.succ[m][k] == n;
  }

  /** The value of node n when every node is evaluated after its predecessors. */
  ghost function Eval(g: Dag, op: Op, rank: seq<nat>, n: nat): Data
    requires Ranked(g, rank) && n < |g.succ|
    decreases rank[n], 1
  {
    op(n, EvalInputs(g, op, rank, n, |g.succ|))
  }

  ghost function EvalInputs(g: Dag, op: Op, rank: seq<nat>, n: nat, upTo: nat): (r: seq<Option<Data>>)
    requires Ranked(g, rank) && n < |g.succ| && upTo <= |g.succ|
    ensures |r| == upTo
    ensures forall m :: 0 <= m < upTo && n !in g.succ[m] ==> r[m].None?
    ensures forall m ::
              0 <= m < upTo && n in g.succ[m] ==> m < |rank| && rank[m] < rank[n] && r[m] == Some(Eval(g, op, rank, m))
    decreases rank[n], 0, upTo
  {
    if upTo == 0 then []
    else
      var last :=
        if n in g.succ[upTo - 1] then (RankGrows(g, rank, upTo - 1, n); Some(Eval(g, op, rank, upTo - 1))) else None;
      EvalInputs(g, op, rank, n, upTo - 1) + [last]
  }

  /** What a running node reads: the results present for its predecessors. */
  ghost function Inputs(g: Dag, results: seq<Option<Data>>, n: nat): (r: seq<Option<Data>>)
    requires |results| == |g.succ|
    ensures |r| == |g.succ| && forall m :: 0 <= m < |r| ==> r[m] == if n in g.succ[m] then results[m] else None
  {
    seq(|g.succ|, m requires 0 <= m < |g.succ| => if n in g.succ[m] then results[m] else None)
  }

  // ----- steps

  ghost predicate Init(g: Dag, s: State) {
    && |s.status| == |s.refs| == |s.results| == |g.succ|
    && (forall n :: 0 <= n < |g.succ| ==> s.status[n] == Waiting && s.results[n].None? && s.refs[n] == InputEdges(g, n))
    && s.outstanding == 0
    && (forall n :: n in s.rootsLeft <==> 0 <= n < |g.succ| && IsRoot(g, n))
    && (forall i, j :: 0 <= i < j < |s.rootsLeft| ==> s.rootsLeft[i] != s.rootsLeft[j])
  }

  datatype Action =
    | EnqueueRoot
    | Start(n: nat)
    | Compute(n: nat)
    | Throw(n: nat)
    | Lock(n: nat)
    | ReleaseEdge(n: nat)
    | Unlock(n: nat)
    | EndChain(n: nat)
    | EndThrow(n: nat)

  ghost predicate Enabled(g: Dag, s: State, a: Action) {
    match a
    case EnqueueRoot => s.rootsLeft != []
    case Start(n) => n < |s.status| && s.status[n].Queued?
    case Compute(n) => n < |s.status| == |g.hasKernel| && s.status[n].Running? && g.hasKernel[n]
    case Throw(n) => n < |s.status| && s.status[n].Running?
    case Lock(n) =>
      n < |s.status| && s.status[n].Computed? && forall m :: 0 <= m < |s.status| ==> !s.status[m].Releasing?
    case ReleaseEdge(n) => n < |s.status| == |g.succ| && s.status[n].Releasing? && s.status[n].done < |g.succ[n]|
    case Unlock(n) => n < |s.status| == |g.succ| && s.status[n].Releasing? && s.status[n].done == |g.succ[n]|
    case EndChain(n) => n < |s.status| && s.status[n].Draining?
    case EndThrow(n) => n < |s.status| && s.status[n].Throwing?
  }

  ghost predicate Sized(g: Dag, s: State) {
    && ValidDag(g) && |s.status| == |s.refs| == |s.results| == |g.succ|
    && (forall i :: 0 <= i < |s.rootsLeft| ==> s.rootsLeft[i] < |g.succ|)
    && (forall n :: 0 <= n < |s.status| && s.status[n].Releasing? && s.status[n].claimed.Some? ==>
          s.status[n].claimed.value < |s.status|)
  }

  /** One decrement of a successor's reference count; a node that reaches zero is claimed or queued. */
  ghost function ReleaseOne(g: Dag, s: State, n: nat): State
    requires Sized(g, s) && Enabled(g, s, ReleaseEdge(n))
  {
    var st := s.status[n];
    var d := g.succ[n][st.done];
    var refs := s.refs[d := s.refs[d] - 1];
    if refs[d] != 0 then s.(refs := refs, status := s.status[n := st.(done := st.done + 1)])
    else if st.claimed.None? then
      s.(refs := refs, status := s.status[d := Claimed][n := Releasing(st.done + 1, Some(d))])
    else
      s.(refs := refs, status := s.status[d := Queued][n := st.(done := st.done + 1)], outstanding := s.outstanding + 1)
  }

  ghost function Do(g: Dag, op: Op, s: State, a: Action): State
    requires Sized(g, s) && Enabled(g, s, a)
  {
    match a
    case EnqueueRoot =>
      var r := s.rootsLeft[0];
      if g.hasKernel[r]
      then s.(rootsLeft := s.rootsLeft[1..], status := s.status[r := Queued], outstanding := s.outstanding + 1)
      else s.(rootsLeft := s.rootsLeft[1..])
    case Start(n) => s.(status := s.status[n := Running])
    case Compute(n) =>
      s.(status := s.status[n := Computed], results := s.results[n := Some(op(n, Inputs(g, s.results, n)))])
    case Throw(n) => s.(status := s.status[n := Throwing])
    case Lock(n) => s.(status := s.status[n := Releasing(0, None)])
    case ReleaseEdge(n) => ReleaseOne(g, s, n)
    case Unlock(n) =>
      var next := s.status[n].claimed;
      if next.Some? then s.(status := s.status[n := Finished][next.value := Running])
      else s.(status := s.status[n := Draining])
    case EndChain(n) => s.(status := s.status[n := Finished], outstanding := s.outstanding - 1)
    case EndThrow(n) => s.(status := s.status[n := Failed], outstanding := s.outstanding - 1)
  }

  // ----- what every step keeps

  /** node_refs_[n] counts exactly the input edges of n that are still unreleased. */
  ghost predicate RefsExact(g: Dag, s: State)
    requires |s.status| == |s.refs| == |g.succ|
  {
    forall n :: 0 <= n < |s.refs| ==> s.refs[n] == Unreleased(g, s.status, n)
  }

  /** A node waits exactly as long as something holds it back or it is a root that is yet to be enqueued. */
  ghost predicate WaitingOk(g: Dag, s: State)
    requires Sized(g, s)
  {
    && (forall n :: 0 <= n < |s.status| && !s.status[n].Waiting? ==> s.refs[n] == 0)
    && (forall n :: 0 <= n < |s.status| && s.status[n].Waiting? && s.refs[n] == 0 ==>
          IsRoot(g, n) && (n in s.rootsLeft || !g.hasKernel[n]))
    && (forall n :: 0 <= n < |s.status| && IsRoot(g, n) && !g.hasKernel[n] ==> s.status[n].Waiting?)
    && (forall i :: 0 <= i < |s.rootsLeft| ==> s.status[s.rootsLeft[i]].Waiting? && s.refs[s.rootsLeft[i]] == 0)
    && (forall i, j :: 0 <= i < j < |s.rootsLeft| ==> s.rootsLeft[i] != s.rootsLeft[j])
    && (forall n :: 0 <= n < |s.status| && s.status[n].Releasing? ==> s.status[n].done <= |g.succ[n]|)
  }

  /** At most one chain holds the reference lock, and a node is claimed exactly by that chain. */
  ghost predicate LockOk(s: State) {
    && (forall m, n :: 0 <= m < n < |s.status| ==> !(s.status[m].Releasing? && s.status[n].Releasing?))
    && (forall n :: 0 <= n < |s.status| && s.status[n].Releasing? && s.status[n].claimed.Some? ==>
          s.status[n].claimed.value < |s.status| && s.status[s.status[n].claimed.value].Claimed?)
    && (forall d :: 0 <= d < |s.status| && s.status[d].Claimed? ==>
          exists n :: 0 <= n < |s.status| && s.status[n].Releasing? && s.status[n].claimed == Some(d))
  }

  /** out_standings_ counts the chains that are queued or running. */
  ghost predicate CounterOk(s: State) {
    s.outstanding == Sum(Chains(s.status))
  }

  /** Results exist exactly for computed nodes and are what sequential evaluation gives. */
  ghost predicate ResultsOk(g: Dag, op: Op, rank: seq<nat>, s: State)
    requires Ranked(g, rank) && |s.status| == |s.results| == |g.succ|
  {
    forall n :: 0 <= n < |s.status| ==>
      s.results[n] == if HasResult(s.status[n]) then Some(Eval(g, op, rank, n)) else None
  }

  ghost predicate Inv(g: Dag, op: Op, rank: seq<nat>, s: State) {
    && Ranked(g, rank) && Sized(g, s) && RefsExact(g, s) && WaitingOk(g, s) && LockOk(s) && CounterOk(s)
    && ResultsOk(g, op, rank, s)
  }
}
