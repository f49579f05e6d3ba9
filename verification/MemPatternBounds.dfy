/** How big the chunk gets, and how its blocks are aligned. */
module MemPatternBounds {
  import opened Wrappers
  import opened MemPattern
  import opened MemPatternTheorems

  /** A block in use: the value and its size. */
  datatype Item = Item(index: nat, size: nat)

  ghost function Items(st: PlannerState): (r: seq<Item>)
    requires InRange(st)
    ensures |r| == |st.blocks|
    ensures forall i :: 0 <= i < |r| ==> r[i] == Item(st.allocs[st.blocks[i]].index, At(st, i).size)
  {
    seq(|st.blocks|, i requires 0 <= i < |st.blocks| => Item(st.allocs[st.blocks[i]].index, At(st, i).size))
  }

  ghost function Bytes(items: seq<Item>): nat {
    if items == [] then 0 else items[0].size + Bytes(items[1..])
  }

  lemma {:induction false} BytesConcat(a: seq<Item>, b: seq<Item>)
    ensures Bytes(a + b) == Bytes(a) + Bytes(b)
  {
    if a == [] {
      assert a + b == b;
    } else {
      assert (a + b)[1..] == a[1..] + b;
      BytesConcat(a[1..], b);
    }
  }

  lemma BytesOne(x: Item)
    ensures Bytes([x]) == x.size
  {
    assert [x][1..] == [];
  }

  lemma BytesInsert(items: seq<Item>, p: nat, x: Item)
    requires p <= |items|
    ensures Bytes(items[..p] + [x] + items[p..]) == Bytes(items) + x.size
  {
    hide Bytes;
    assert items == items[..p] + items[p..];
    BytesConcat(items[..p], items[p..]);
    BytesConcat(items[..p], [x]);
    BytesConcat(items[..p] + [x], items[p..]);
    BytesOne(x);
  }

  lemma BytesRemove(items: seq<Item>, p: nat)
    requires p < |items|
    ensures Bytes(items[..p] + items[p + 1..]) == Bytes(items) - items[p].size
  {
    hide Bytes;
    var front, back := items[..p], items[p + 1..];
    assert items == front + [items[p]] + back;
    BytesConcat(front, [items[p]]);
    BytesConcat(front + [items[p]], back);
    BytesConcat(front, back);
    BytesOne(items[p]);
  }

  /** Disjoint blocks in order of offset fit below the end of the last one. */
  lemma {:induction false} BlocksFit(st: PlannerState, k: nat)
    requires Layout(st) && k <= |st.blocks|
    ensures Bytes(Items(st)[..k]) <= GapStart(st, k)
  {
    if k > 0 {
      BlocksFit(st, k - 1);
      var items := Items(st);
      assert items[..k] == items[..k - 1] + [items[k - 1]];
      BytesConcat(items[..k - 1], [items[k - 1]]);
      BytesOne(items[k - 1]);
      assert GapStart(st, k - 1) <= At(st, k - 1).offset;
    }
  }

  /** Traced values that have been defined and not yet released. */
  ghost function Live(sched: seq<Event>, traced: Traced, n: nat): set<nat>
    requires n <= |sched|
  {
    if n == 0 then {}
    else if !traced(sched[n - 1].v) then Live(sched, traced, n - 1)
    else if sched[n - 1].Define? then Live(sched, traced, n - 1) + {sched[n - 1].v}
    else Live(sched, traced, n - 1) - {sched[n - 1].v}
  }

  /** Their bytes: what is defined comes in, what is released goes out. */
  ghost function LiveBytes(sched: seq<Event>, size: Sizes, traced: Traced, n: nat): int
    requires n <= |sched|
  {
    if n == 0 then 0
    else if !traced(sched[n - 1].v) then LiveBytes(sched, size, traced, n - 1)
    else if sched[n - 1].Define? then LiveBytes(sched, size, traced, n - 1) + size(sched[n - 1].v)
    else
      LiveBytes(sched, size, traced, n - 1)
      - if sched[n - 1].v in Live(sched, traced, n - 1) then size(sched[n - 1].v) else 0
  }

  ghost function TracedBytes(sched: seq<Event>, size: Sizes, traced: Traced, n: nat): nat
    requires n <= |sched|
  {
    if n == 0 then 0
    else TracedBytes(sched, size, traced, n - 1) +
         if sched[n - 1].Define? && traced(sched[n - 1].v) then size(sched[n - 1].v) else 0
  }

  lemma {:induction false} LiveWasDefined(sched: seq<Event>, traced: Traced, n: nat, v: nat)
    requires n <= |sched| && v in Live(sched, traced, n)
    ensures exists i :: 0 <= i < n && sched[i] == Define(v)
  {
    if v in Live(sched, traced, n - 1) {
      LiveWasDefined(sched, traced, n - 1, v);
    } else {
      assert sched[n - 1] == Define(v);
    }
  }

  /** Items in use and live nonempty values are the same thing. */
  ghost predicate InUse(items: seq<Item>, live: set<nat>, size: Sizes) {
    && (forall x :: x in items ==> x.index in live && x.size == size(x.index))
    && (forall i, j :: 0 <= i < j < |items| ==> items[i].index != items[j].index)
    && (forall v :: v in live && size(v) > 0 ==> Item(v, size(v)) in items)
  }

  lemma LayoutInRange(st: PlannerState)
    requires Layout(st)
    ensures InRange(st) && forall i :: 0 <= i < |st.blocks| ==> st.blocks[i] < |st.allocs|
  {
  }

  lemma DefineItemAt(st: PlannerState, v: nat, size: nat, k: nat)
    requires Layout(st) && size > 0 && k <= |st.blocks|
    ensures var p := SearchAfter(st, size, |st.blocks|).pos;
            && p <= |st.blocks| && InRange(AfterAllocation(st, v, size)) && k < |Items(AfterAllocation(st, v, size))|
            && Items(AfterAllocation(st, v, size))[k]
               == if k < p then Items(st)[k] else if k == p then Item(v, size) else Items(st)[k - 1]
  {
    hide Layout, AfterAllocation, SearchAfter;
    LayoutInRange(st);
    AllocationKeepsLayout(st, v, size);
    LayoutInRange(AfterAllocation(st, v, size));
    AllocationShape(st, v, size, 0);
    AllocationShape(st, v, size, k);
    DefineAppends(st, v, size);
  }

  lemma DefineItems(st: PlannerState, v: nat, size: nat) returns (p: nat)
    requires Layout(st) && size > 0
    ensures p <= |st.blocks| && InRange(AfterAllocation(st, v, size))
    ensures Items(AfterAllocation(st, v, size)) == Items(st)[..p] + [Item(v, size)] + Items(st)[p..]
  {
    hide *;
    LayoutInRange(st);
    p := SearchAfter(st, size, |st.blocks|).pos;
    DefineItemAt(st, v, size, 0);
    AllocationShape(st, v, size, 0);
    var items := Items(st)[..p] + [Item(v, size)] + Items(st)[p..];
    var st' := AfterAllocation(st, v, size);
    assert |Items(st')| == |items|;
    forall k | 0 <= k < |items|
      ensures Items(st')[k] == items[k]
    {
      DefineItemAt(st, v, size, k);
    }
  }

  lemma DefineInUse(st: PlannerState, live: set<nat>, size: Sizes, v: nat)
    requires Layout(st) && InUse(Items(st), live, size) && v !in live
    ensures InRange(AfterAllocation(st, v, size(v)))
    ensures InUse(Items(AfterAllocation(st, v, size(v))), live + {v}, size)
    ensures Bytes(Items(AfterAllocation(st, v, size(v)))) == Bytes(Items(st)) + size(v)
  {
    var st' := AfterAllocation(st, v, size(v));
    var items := Items(st);
    if size(v) == 0 {
      assert Items(st') == items;
    } else {
      var p := DefineItems(st, v, size(v));
      BytesInsert(items, p, Item(v, size(v)));
      hide AfterAllocation, Layout, Items, Bytes;
      InsertInUse(items, live, size, v, p);
    }
  }

  lemma InsertInUse(items: seq<Item>, live: set<nat>, size: Sizes, v: nat, p: nat)
    requires InUse(items, live, size) && v !in live && p <= |items|
    ensures InUse(items[..p] + [Item(v, size(v))] + items[p..], live + {v}, size)
  {
    var x := Item(v, size(v));
    var more := items[..p] + [x] + items[p..];
    forall y
      ensures y in more <==> y in items || y == x
    {
      InsertMembers(items, p, x, y);
    }
    forall i, j | 0 <= i < j < |more|
      ensures more[i].index != more[j].index
    {
      assert more[i] == if i < p then items[i] else if i == p then x else items[i - 1];
      assert more[j] == if j < p then items[j] else if j == p then x else items[j - 1];
      assert i != p ==> more[i] in items;
      assert j != p ==> more[j] in items;
    }
  }

  lemma InsertMembers(items: seq<Item>, p: nat, x: Item, y: Item)
    requires p <= |items|
    ensures y in items[..p] + [x] + items[p..] <==> y in items || y == x
  {
    assert items == items[..p] + items[p..];
  }

  lemma ReleaseItems(st: PlannerState, v: nat)
    requires Layout(st)
    ensures InRange(AfterFree(st, v))
    ensures var p := FindBlock(st, v, 0);
            if p < |st.blocks|
            then Items(st)[p].index == v && Items(AfterFree(st, v)) == Items(st)[..p] + Items(st)[p + 1..]
            else Items(AfterFree(st, v)) == Items(st) && forall x :: x in Items(st) ==> x.index != v
  {
    hide Layout, FindBlock, AfterFree;
    LayoutInRange(st);
    FreeKeepsLayout(st, v);
    LayoutInRange(AfterFree(st, v));
    FreeShape(st, v);
    var p, items, st' := FindBlock(st, v, 0), Items(st), AfterFree(st, v);
    if p < |st.blocks| {
      assert |Items(st')| == |items| - 1;
      forall k | 0 <= k < |Items(st')|
        ensures Items(st')[k] == (items[..p] + items[p + 1..])[k]
      {
        assert st'.blocks[k] == st.blocks[if k < p then k else k + 1];
      }
    } else {
      assert Items(st') == items;
    }
  }

  lemma FreeShape(st: PlannerState, v: nat)
    requires InRange(st)
    ensures var p := FindBlock(st, v, 0);
            && AfterFree(st, v).allocs == st.allocs
            && AfterFree(st, v).blocks == if p < |st.blocks| then st.blocks[..p] + st.blocks[p + 1..] else st.blocks
  {
  }

  lemma ReleaseInUse(st: PlannerState, live: set<nat>, size: Sizes, v: nat)
    requires Layout(st) && InUse(Items(st), live, size)
    ensures InRange(AfterFree(st, v))
    ensures InUse(Items(AfterFree(st, v)), live - {v}, size)
    ensures Bytes(Items(AfterFree(st, v))) == Bytes(Items(st)) - if v in live then size(v) else 0
  {
    hide AfterFree, Layout, Items, Bytes, InUse, InRange;
    LayoutInRange(st);
    ReleaseItems(st, v);
    var items, p := Items(st), FindBlock(st, v, 0);
    if p < |st.blocks| {
      BytesRemove(items, p);
      InUseAt(items, live, size, items[p]);
      RemoveInUse(items, live, size, p);
    } else {
      AbsentNotLive(items, live, size, v);
    }
  }

  lemma InUseAt(items: seq<Item>, live: set<nat>, size: Sizes, x: Item)
    requires InUse(items, live, size) && x in items
    ensures x.index in live && x.size == size(x.index)
  {
  }

  lemma AbsentNotLive(items: seq<Item>, live: set<nat>, size: Sizes, v: nat)
    requires InUse(items, live, size) && forall x :: x in items ==> x.index != v
    ensures v in live ==> size(v) == 0
    ensures InUse(items, live - {v}, size)
  {
    assert Item(v, size(v)) !in items;
  }

  lemma RemoveInUse(items: seq<Item>, live: set<nat>, size: Sizes, p: nat)
    requires InUse(items, live, size) && p < |items|
    ensures InUse(items[..p] + items[p + 1..], live - {items[p].index}, size)
  {
    var rest := items[..p] + items[p + 1..];
    assert forall k :: 0 <= k < |rest| ==> rest[k] == items[if k < p then k else k + 1];
    forall x | x in items && x.index != items[p].index
      ensures x in rest
    {
      var i :| 0 <= i < |items| && items[i] == x;
      assert rest[if i < p then i else i - 1] == x;
    }
  }

  /** What one event does to the items in use and their bytes. */
  lemma StepInUse(st: PlannerState, live: set<nat>, size: Sizes, traced: Traced, e: Event)
    requires Layout(st) && InUse(Items(st), live, size) && (e.Define? && traced(e.v) ==> e.v !in live)
    ensures InRange(Step(st, e, size, traced))
    ensures InUse(Items(Step(st, e, size, traced)),
                  if !traced(e.v) then live else if e.Define? then live + {e.v} else live - {e.v}, size)
    ensures Bytes(Items(Step(st, e, size, traced))) == Bytes(Items(st))
            + (if traced(e.v) && e.Define? then size(e.v) else 0)
            - (if traced(e.v) && e.Release? && e.v in live then size(e.v) else 0)
  {
    hide InUse, Layout, AfterAllocation, AfterFree, Items, Bytes, InRange;
    LayoutInRange(st);
    if traced(e.v) {
      match e
      case Define(v) => DefineInUse(st, live, size, v);
      case Release(v) => ReleaseInUse(st, live, size, v);
    }
  }

  lemma {:induction false} LiveInUse(sched: seq<Event>, size: Sizes, traced: Traced, n: nat)
    requires DefinedOnce(sched) && n <= |sched|
    ensures InUse(Items(After(sched, size, traced, n)), Live(sched, traced, n), size)
    ensures Bytes(Items(After(sched, size, traced, n))) == LiveBytes(sched, size, traced, n)
  {
    hide *;
    if n == 0 {
      NothingInUse(sched, size, traced);
    } else {
      LiveInUse(sched, size, traced, n - 1);
      if sched[n - 1].Define? { NotLiveYet(sched, traced, n); }
      AfterOneMore(sched, size, traced, n);
      StepInUse(After(sched, size, traced, n - 1), Live(sched, traced, n - 1), size, traced, sched[n - 1]);
    }
  }

  lemma NothingInUse(sched: seq<Event>, size: Sizes, traced: Traced)
    ensures InUse(Items(After(sched, size, traced, 0)), Live(sched, traced, 0), size)
    ensures Bytes(Items(After(sched, size, traced, 0))) == LiveBytes(sched, size, traced, 0)
  {
    assert Items(EMPTY) == [];
  }

  lemma AfterOneMore(sched: seq<Event>, size: Sizes, traced: Traced, n: nat)
    requires 0 < n <= |sched|
    ensures var e, st, live := sched[n - 1], After(sched, size, traced, n - 1), Live(sched, traced, n - 1);
            && InRange(st) && After(sched, size, traced, n) == Step(st, e, size, traced)
            && Live(sched, traced, n) ==
               (if !traced(e.v) then live else if e.Define? then live + {e.v} else live - {e.v})
            && LiveBytes(sched, size, traced, n) == LiveBytes(sched, size, traced, n - 1)
               + (if traced(e.v) && e.Define? then size(e.v) else 0)
               - (if traced(e.v) && e.Release? && e.v in live then size(e.v) else 0)
  {
    LayoutInRange(After(sched, size, traced, n - 1));
    hide Step, Layout;
  }

  lemma NotLiveYet(sched: seq<Event>, traced: Traced, n: nat)
    requires DefinedOnce(sched) && 0 < n <= |sched| && sched[n - 1].Define?
    ensures sched[n - 1].v !in Live(sched, traced, n - 1)
  {
    if sched[n - 1].v in Live(sched, traced, n - 1) {
      LiveWasDefined(sched, traced, n - 1, sched[n - 1].v);
      assert false;
    }
  }

  lemma {:induction false} BufferAtMostTraced(sched: seq<Event>, size: Sizes, traced: Traced, n: nat)
    requires n <= |sched|
    ensures After(sched, size, traced, n).bufferSize <= TracedBytes(sched, size, traced, n)
  {
    if n > 0 {
      BufferAtMostTraced(sched, size, traced, n - 1);
      var before := After(sched, size, traced, n - 1);
      if sched[n - 1].Define? {
        BestFit(before, size(sched[n - 1].v));
        BelowPeak(before, SearchAfter(before, size(sched[n - 1].v), |before.blocks|).pos);
      }
      hide Layout, SearchAfter;
    }
  }

  lemma BelowPeak(st: PlannerState, i: nat)
    requires Layout(st) && i <= |st.blocks|
    ensures GapStart(st, i) <= st.bufferSize
  {
  }

  /** The peak lies between what is ever in use at once and the total of everything traced. */
  lemma PeakBounds(sched: seq<Event>, size: Sizes, traced: Traced, n: nat)
    requires DefinedOnce(sched) && n <= |sched|
    ensures LiveBytes(sched, size, traced, n) <= FinalPattern(sched, size, traced).peakSize
    ensures FinalPattern(sched, size, traced).peakSize <= TracedBytes(sched, size, traced, |sched|)
  {
    var st := After(sched, size, traced, n);
    LiveInUse(sched, size, traced, n);
    BlocksFit(st, |st.blocks|);
    assert Items(st)[..|st.blocks|] == Items(st);
    BelowPeak(st, |st.blocks|);
    AllocsGrow(sched, size, traced, n, |sched|);
    BufferAtMostTraced(sched, size, traced, |sched|);
  }

  ghost function Times(a: nat, k: int): int {
    a * k
  }

  ghost predicate MultipleOf(x: int, a: nat) {
    exists k :: x == Times(a, k)
  }

  lemma MultipleAdd(x: int, y: int, a: nat)
    requires MultipleOf(x, a) && MultipleOf(y, a)
    ensures MultipleOf(x + y, a)
  {
    var p :| x == Times(a, p);
    var q :| y == Times(a, q);
    assert x + y == Times(a, p + q);
  }

  ghost predicate Aligned(st: PlannerState, a: nat) {
    forall k :: 0 <= k < |st.allocs| ==>
      MultipleOf(st.allocs[k].block.offset, a) && MultipleOf(st.allocs[k].block.size, a)
  }

  lemma DefineAligned(st: PlannerState, v: nat, size: nat, a: nat)
    requires Layout(st) && Aligned(st, a) && MultipleOf(size, a)
    ensures Aligned(AfterAllocation(st, v, size), a)
  {
    assert 0 == Times(a, 0);
    BestFit(st, size);
    var s := SearchAfter(st, size, |st.blocks|);
    if s.pos > 0 {
      var b := st.blocks[s.pos - 1];
      MultipleAdd(st.allocs[b].block.offset, st.allocs[b].block.size, a);
    }
    hide MultipleOf, Layout, SearchAfter;
  }

  /** If every traced size is a multiple of a, so is every offset. */
  lemma {:induction false} OffsetsAligned(sched: seq<Event>, size: Sizes, traced: Traced, n: nat, a: nat)
    requires n <= |sched|
    requires forall i :: 0 <= i < |sched| && sched[i].Define? && traced(sched[i].v) ==> MultipleOf(size(sched[i].v), a)
    ensures Aligned(After(sched, size, traced, n), a)
  {
    if n > 0 {
      OffsetsAligned(sched, size, traced, n - 1, a);
      hide MultipleOf, Layout, AfterAllocation;
      if sched[n - 1].Define? && traced(sched[n - 1].v) {
        DefineAligned(After(sched, size, traced, n - 1), sched[n - 1].v, size(sched[n - 1].v), a);
      }
    }
  }
}
