/**
 What the static planner keeps true while it walks the topological order.  The heart
 is `CountsExact`: the use count of a root buffer is the number of remaining events
 (explicit use, implicit use, pending definition, caller hold) of all its sharers.
 */
module PlannerInvariant {
  import opened Wrappers
  import opened Counting
  import opened GraphModel
  import opened PlanSafety

  /** A buffer nobody needs after step `deallocatePoint`. */
  datatype FreeBufferInfo = FreeBufferInfo(mlValue: nat, deallocatePoint: nat)

  /** How many of the events concern values that live in buffer r. */
  function Count(events: seq<nat>, buffer: seq<nat>, r: nat): nat {
    if events == [] then 0
    else (if events[0] < |buffer| && buffer[events[0]] == r then 1 else 0) + Count(events[1..], buffer, r)
  }

  lemma {:induction false} CountConcat(a: seq<nat>, b: seq<nat>, buffer: seq<nat>, r: nat)
    ensures Count(a + b, buffer, r) == Count(a, buffer, r) + Count(b, buffer, r)
  {
    if a == [] {
      assert a + b == b;
    } else {
      assert (a + b)[1..] == a[1..] + b;
      CountConcat(a[1..], b, buffer, r);
    }
  }

  lemma {:induction false} CountZero(events: seq<nat>, buffer: seq<nat>, r: nat)
    ensures Count(events, buffer, r) == 0 <==>
            forall v :: v in events && v < |buffer| ==> buffer[v] != r
  {
    if events != [] {
      CountZero(events[1..], buffer, r);
      assert forall v :: v in events <==> v == events[0] || v in events[1..];
    }
  }

  lemma CountPositive(events: seq<nat>, buffer: seq<nat>, v: nat)
    requires v in events && v < |buffer|
    ensures Count(events, buffer, buffer[v]) >= 1
  {
    CountZero(events, buffer, buffer[v]);
  }

  /** When o, so far alone in its buffer, moves into buffer r, its events move along. */
  lemma {:induction false} CountMove(events: seq<nat>, buffer: seq<nat>, o: nat, r: nat, s: nat)
    requires o < |buffer| && buffer[o] == o && r != o && s != o
    ensures Count(events, buffer[o := r], s) ==
            Count(events, buffer, s) + if s == r then CountOf(events, o) else 0
  {
    if events != [] {
      CountMove(events[1..], buffer, o, r, s);
    }
  }

  /** Occurrences of one value. */
  lemma {:induction false} CountAlone(events: seq<nat>, buffer: seq<nat>, o: nat)
    requires o < |buffer| && buffer[o] == o
    requires forall w :: 0 <= w < |buffer| && buffer[w] == o ==> w == o
    ensures Count(events, buffer, o) == CountOf(events, o)
  {
    if events != [] { CountAlone(events[1..], buffer, o); }
  }

  lemma {:induction false} ExistingConcat(a: seq<Option<nat>>, b: seq<Option<nat>>)
    ensures Existing(a + b) == Existing(a) + Existing(b)
  {
    if a == [] {
      assert a + b == b;
    } else {
      assert (a + b)[1..] == a[1..] + b;
      ExistingConcat(a[1..], b);
    }
  }

  /** Two argument positions in the same buffer are two uses of that buffer. */
  lemma TwoUses(args: seq<Option<nat>>, p: nat, q: nat, buffer: seq<nat>, r: nat)
    requires p < q < |args| && args[p].Some? && args[q].Some?
    requires args[p].value < |buffer| && args[q].value < |buffer|
    requires buffer[args[p].value] == r && buffer[args[q].value] == r
    ensures Count(Existing(args), buffer, r) >= 2
  {
    var front, back := args[..q], args[q..];
    assert args == front + back;
    ExistingConcat(front, back);
    CountConcat(Existing(front), Existing(back), buffer, r);
    assert args[p] in front && args[q] in back by { assert front[p] == args[p]; assert back[0] == args[q]; }
    assert args[p].value in Existing(front);
    CountPositive(Existing(front), buffer, args[p].value);
    CountPositive(Existing(back), buffer, args[q].value);
  }

  /** Which values share which buffer; `defd` holds the values produced so far. */
  ghost predicate BufferOk(g: Graph, buffer: seq<nat>, defd: set<nat>) {
    && Covers(g, buffer)
    && (forall v :: 0 <= v < |buffer| ==> buffer[v] < |buffer| && buffer[buffer[v]] == buffer[v])
    && (forall v :: 0 <= v < |buffer| && v !in defd ==> buffer[v] == v)
    && (forall v :: 0 <= v < |buffer| && v in defd ==> buffer[v] in defd)
    && (forall v :: 0 <= v < |buffer| && IsSource(g, v) ==> buffer[v] == v)
  }

  ghost predicate CountsExact(useCount: seq<int>, buffer: seq<nat>, events: seq<nat>) {
    && |useCount| == |buffer|
    && forall r :: 0 <= r < |buffer| && buffer[r] == r ==> useCount[r] == Count(events, buffer, r)
  }

  /** An entry names a root with no use left, dead since its deallocation point. */
  ghost predicate EntryOk(g: Graph, useCount: seq<int>, buffer: seq<nat>, e: FreeBufferInfo) {
    && Covers(g, buffer) && |useCount| == |buffer|
    && e.mlValue < |buffer| && useCount[e.mlValue] == 0
    && e.deallocatePoint < |g.nodes| && ReleaseSafe(g, buffer, e.deallocatePoint, e.mlValue)
  }

  ghost predicate Listed(freelist: seq<FreeBufferInfo>, r: nat) {
    exists e :: e in freelist && e.mlValue == r
  }

  /** Distinct buffers, most recently freed first. */
  ghost predicate Ordered(freelist: seq<FreeBufferInfo>) {
    forall i, j :: 0 <= i < j < |freelist| ==>
      freelist[i].mlValue != freelist[j].mlValue && freelist[i].deallocatePoint >= freelist[j].deallocatePoint
  }

  ghost predicate EntriesOk(g: Graph, useCount: seq<int>, buffer: seq<nat>, freelist: seq<FreeBufferInfo>,
                            defd: set<nat>, last: int) {
    forall e :: e in freelist ==>
      EntryOk(g, useCount, buffer, e) && e.deallocatePoint <= last && e.mlValue in defd
  }

  ghost predicate UnusedListed(useCount: seq<int>, buffer: seq<nat>, freelist: seq<FreeBufferInfo>, defd: set<nat>) {
    && |useCount| == |buffer|
    && forall r :: 0 <= r < |buffer| && r in defd && buffer[r] == r && useCount[r] == 0 ==> Listed(freelist, r)
  }

  /** The freelist holds exactly the unused roots. */
  ghost predicate FreelistOk(g: Graph, useCount: seq<int>, buffer: seq<nat>, freelist: seq<FreeBufferInfo>,
                             defd: set<nat>, last: int) {
    && Covers(g, buffer)
    && EntriesOk(g, useCount, buffer, freelist, defd, last)
    && Ordered(freelist)
    && UnusedListed(useCount, buffer, freelist, defd)
  }

  ghost predicate Invariant(g: Graph, useCount: seq<int>, buffer: seq<nat>, freelist: seq<FreeBufferInfo>,
                            defd: set<nat>, events: seq<nat>, last: int) {
    && BufferOk(g, buffer, defd)
    && CountsExact(useCount, buffer, events)
    && FreelistOk(g, useCount, buffer, freelist, defd, last)
  }

  /** A buffer is on the freelist exactly when it is a root that no remaining event needs. */
  lemma FreeExactlyWhenUnused(g: Graph, useCount: seq<int>, buffer: seq<nat>, freelist: seq<FreeBufferInfo>,
                              defd: set<nat>, events: seq<nat>, last: int, r: nat)
    requires Invariant(g, useCount, buffer, freelist, defd, events, last)
    requires r < |buffer|
    ensures Listed(freelist, r) <==>
            r in defd && buffer[r] == r && forall v :: v in events && v < |buffer| ==> buffer[v] != r
  {
    CountZero(events, buffer, r);
    if Listed(freelist, r) {
      var e :| e in freelist && e.mlValue == r;
      assert EntryOk(g, useCount, buffer, e);
    }
  }

  /** The output o gets a buffer of its own. */
  lemma KeepOwnBuffer(g: Graph, useCount: seq<int>, buffer: seq<nat>, freelist: seq<FreeBufferInfo>,
                      defd: set<nat>, events: seq<nat>, last: int, o: nat)
    requires Invariant(g, useCount, buffer, freelist, defd, events, last)
    requires o < |buffer| && o in events
    ensures Invariant(g, useCount, buffer, freelist, defd + {o}, events, last)
  {
    CountPositive(events, buffer, o);
    assert o !in defd ==> useCount[o] >= 1;
    forall r | 0 <= r < |buffer| && r in defd + {o} && buffer[r] == r && useCount[r] == 0
      ensures Listed(freelist, r)
    {
      assert r in defd;
    }
  }

  function RemoveAt(freelist: seq<FreeBufferInfo>, k: nat): (r: seq<FreeBufferInfo>)
    requires k < |freelist|
    ensures |r| == |freelist| - 1
    ensures forall i :: 0 <= i < |r| ==> r[i] == freelist[if i < k then i else i + 1]
  {
    freelist[..k] + freelist[k + 1..]
  }

  /** Freelist after the entry for r, if there is one, has been taken off. */
  ghost predicate Without(freelist: seq<FreeBufferInfo>, freelist': seq<FreeBufferInfo>, r: nat) {
    || (freelist' == freelist && !Listed(freelist, r))
    || exists k :: 0 <= k < |freelist| && freelist[k].mlValue == r && freelist' == RemoveAt(freelist, k)
  }

  lemma RemovedMembers(freelist: seq<FreeBufferInfo>, k: nat)
    requires k < |freelist| && Ordered(freelist)
    ensures forall e :: e in RemoveAt(freelist, k) <==> e in freelist && e.mlValue != freelist[k].mlValue
  {
    var rest := RemoveAt(freelist, k);
    forall e | e in freelist && e.mlValue != freelist[k].mlValue
      ensures e in rest
    {
      var i :| 0 <= i < |freelist| && freelist[i] == e;
      assert rest[if i < k then i else i - 1] == e;
    }
  }

  lemma RemovedOrdered(freelist: seq<FreeBufferInfo>, k: nat)
    requires k < |freelist| && Ordered(freelist)
    ensures Ordered(RemoveAt(freelist, k))
  {
    var rest := RemoveAt(freelist, k);
    forall i, j | 0 <= i < j < |rest|
      ensures rest[i].mlValue != rest[j].mlValue && rest[i].deallocatePoint >= rest[j].deallocatePoint
    {
      var p, q := if i < k then i else i + 1, if j < k then j else j + 1;
      assert rest[i] == freelist[p] && rest[j] == freelist[q];
    }
  }

  lemma WithoutKeeps(freelist: seq<FreeBufferInfo>, freelist': seq<FreeBufferInfo>, r: nat)
    requires Without(freelist, freelist', r) && Ordered(freelist)
    ensures forall e :: e in freelist' <==> e in freelist && e.mlValue != r
    ensures Ordered(freelist')
  {
    if freelist' != freelist || Listed(freelist, r) {
      var k :| 0 <= k < |freelist| && freelist[k].mlValue == r && freelist' == RemoveAt(freelist, k);
      RemovedMembers(freelist, k);
      RemovedOrdered(freelist, k);
    }
  }

  lemma ShareCounts(useCount: seq<int>, buffer: seq<nat>, events: seq<nat>, o: nat, r: nat)
    requires CountsExact(useCount, buffer, events)
    requires o < |buffer| && buffer[o] == o && (forall w :: 0 <= w < |buffer| && buffer[w] == o ==> w == o)
    requires r < |buffer| && r != o && buffer[r] == r
    ensures CountsExact(useCount[r := useCount[r] + useCount[o]], buffer[o := r], events)
  {
    CountAlone(events, buffer, o);
    var shared := buffer[o := r];
    forall s | 0 <= s < |buffer| && shared[s] == s
      ensures useCount[r := useCount[r] + useCount[o]][s] == Count(events, shared, s)
    {
      CountMove(events, buffer, o, r, s);
    }
  }

  lemma EntryFrame(g: Graph, useCount: seq<int>, buffer: seq<nat>, counts: seq<int>, shared: seq<nat>,
                   e: FreeBufferInfo)
    requires EntryOk(g, useCount, buffer, e) && |counts| == |shared| == |buffer|
    requires counts[e.mlValue] == 0
    requires forall v :: 0 <= v < |buffer| ==> (shared[v] == e.mlValue <==> buffer[v] == e.mlValue)
    ensures EntryOk(g, counts, shared, e)
  {
  }

  lemma ShareFreelist(g: Graph, useCount: seq<int>, buffer: seq<nat>, freelist: seq<FreeBufferInfo>,
                      freelist': seq<FreeBufferInfo>, defd: set<nat>, last: int, o: nat, r: nat)
    requires FreelistOk(g, useCount, buffer, freelist, defd, last)
    requires o < |buffer| && buffer[o] == o && o !in defd && useCount[o] >= 1
    requires r < |buffer| && r in defd && buffer[r] == r && useCount[r] >= 0 && Without(freelist, freelist', r)
    ensures FreelistOk(g, useCount[r := useCount[r] + useCount[o]], buffer[o := r], freelist', defd + {o}, last)
  {
    var counts, shared := useCount[r := useCount[r] + useCount[o]], buffer[o := r];
    WithoutKeeps(freelist, freelist', r);
    forall e | e in freelist'
      ensures EntryOk(g, counts, shared, e)
    {
      EntryFrame(g, useCount, buffer, counts, shared, e);
    }
    assert UnusedListed(counts, shared, freelist', defd + {o});
  }

  /** Buffer r, in use or just taken off the freelist, is shared with the new output o. */
  lemma ShareBuffer(g: Graph, useCount: seq<int>, buffer: seq<nat>, freelist: seq<FreeBufferInfo>,
                    freelist': seq<FreeBufferInfo>, defd: set<nat>, events: seq<nat>, last: int, o: nat, r: nat)
    requires Invariant(g, useCount, buffer, freelist, defd, events, last)
    requires o < |buffer| && o in events && o !in defd && !IsSource(g, o)
    requires r < |buffer| && r in defd && buffer[r] == r && Without(freelist, freelist', r)
    ensures Invariant(g, useCount[r := useCount[r] + useCount[o]], buffer[o := r], freelist', defd + {o}, events, last)
  {
    CountPositive(events, buffer, o);
    ShareCounts(useCount, buffer, events, o, r);
    ShareFreelist(g, useCount, buffer, freelist, freelist', defd, last, o, r);
  }

  lemma ReleaseFreelist(g: Graph, useCount: seq<int>, counts: seq<int>, buffer: seq<nat>,
                        freelist: seq<FreeBufferInfo>, defd: set<nat>, pc: nat, r: nat)
    requires FreelistOk(g, useCount, buffer, freelist, defd, pc)
    requires r < |buffer| && useCount[r] >= 1 && counts == useCount[r := useCount[r] - 1]
    requires counts[r] == 0 ==> r in defd && EntryOk(g, counts, buffer, FreeBufferInfo(r, pc))
    ensures var freelist' := if counts[r] == 0 then [FreeBufferInfo(r, pc)] + freelist else freelist;
            FreelistOk(g, counts, buffer, freelist', defd, pc)
  {
    var freelist' := if counts[r] == 0 then [FreeBufferInfo(r, pc)] + freelist else freelist;
    forall e | e in freelist
      ensures e.mlValue != r && EntryOk(g, counts, buffer, e)
    {
      EntryFrame(g, useCount, buffer, counts, buffer, e);
    }
    assert forall e :: e in freelist' <==> e in freelist || (counts[r] == 0 && e == FreeBufferInfo(r, pc));
    assert UnusedListed(counts, buffer, freelist', defd);
  }

  /** One event of a root is over; the root is listed when it was the last one. */
  lemma ReleaseEvent(g: Graph, useCount: seq<int>, buffer: seq<nat>, freelist: seq<FreeBufferInfo>,
                     events: seq<nat>, pc: nat)
    requires pc < |g.nodes|
    requires events != [] && events[0] < |buffer| && events[0] in Defined(g, pc + 1)
    requires Invariant(g, useCount, buffer, freelist, Defined(g, pc + 1), events, pc)
    requires forall v :: v in Events(g, pc + 1) ==> v in events[1..]
    ensures var r := buffer[events[0]];
            var counts := useCount[r := useCount[r] - 1];
            var freelist' := if counts[r] == 0 then [FreeBufferInfo(r, pc)] + freelist else freelist;
            Invariant(g, counts, buffer, freelist', Defined(g, pc + 1), events[1..], pc)
  {
    var defd := Defined(g, pc + 1);
    var r := buffer[events[0]];
    var counts := useCount[r := useCount[r] - 1];
    CountPositive(events, buffer, events[0]);
    CountZero(events[1..], buffer, r);
    assert CountsExact(counts, buffer, events[1..]);
    if counts[r] == 0 {
      forall v | 0 <= v < |buffer| && buffer[v] == r
        ensures v in defd && Dead(g, v, pc + 1)
      {
      }
      assert ReleaseSafe(g, buffer, pc, r);
    }
    ReleaseFreelist(g, useCount, counts, buffer, freelist, defd, pc, r);
  }
}
