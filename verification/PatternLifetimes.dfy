/**
 What the execution plan says about lifetimes, carried over to the memory pattern: while a value is needed, the block
 of the buffer it lives in belongs to nobody else, whether the value owns that buffer or shares it.
 */
module PatternLifetimes {
  import opened Wrappers
  import opened GraphModel
  import opened PlanSafety
  import opened MemPattern
  import opened MemPatternTheorems
  import opened PatternCache

  /** Step pc or something after it still touches v, which has been produced when the outputs of step pc are. */
  ghost predicate NeededAt(g: Graph, pc: nat, v: nat)
    requires pc < |g.nodes|
  {
    v in Defined(g, pc + 1) && !Dead(g, v, pc)
  }

  /** All events up to and including the definitions of step pc, before it releases anything. */
  function During(g: Graph, plan: Plan, pc: nat): seq<Event>
    requires pc < |g.nodes|
  {
    Schedule(g, plan, pc) + Defines(Existing(g.nodes[pc].outputs))
  }

  // ----- roots are defined in time

  lemma InputIsDefined(g: Graph, pc: nat, i: int)
    requires WellFormed(g) && pc < |g.nodes| && InputAt(g.nodes[pc], i).Some?
    ensures InputAt(g.nodes[pc], i).value in Defined(g, pc)
  {
    assert NodeOk(g, pc);
    assert Some(InputAt(g.nodes[pc], i).value) in g.nodes[pc].inputs;
  }

  /** An output lives in a buffer of its own or in that of an earlier value. */
  lemma OutputRoot(g: Graph, root: seq<nat>, pc: nat, o: nat)
    requires WellFormed(g) && Covers(g, root) && pc < |g.nodes| && StepSafe(g, root, pc, |g.nodes[pc].outputs|)
    requires o in Existing(g.nodes[pc].outputs)
    ensures o < |root|
    ensures || root[o] == o || root[o] in Defined(g, pc)
            || exists x :: x in Defined(g, pc) && x < |root| && root[x] == root[o]
  {
    OutputsInRange(g, pc);
    var node := g.nodes[pc];
    assert Some(o) in node.outputs;
    var j :| 0 <= j < |node.outputs| && node.outputs[j] == Some(o);
    assert OutputSafe(g, root, pc, j);
    if Aliased(g, root, pc, j, o) {
      var k: nat :| AliasPair(g, root, node, k, j, root[o]);
      InputIsDefined(g, pc, node.kernelDef.value.alias[k].0);
    } else if Inplace(g, root, pc, j, o) {
      var k: nat :| InplacePair(g, root, node, k, j, o);
      InputIsDefined(g, pc, node.kernelDef.value.inplace[k].0);
    }
  }

  lemma {:induction false} RootIsDefined(g: Graph, root: seq<nat>, pc: nat, v: nat)
    requires WellFormed(g) && Covers(g, root) && pc <= |g.nodes| && v in Defined(g, pc)
    requires forall w :: 0 <= w < |root| && IsSource(g, w) ==> root[w] == w
    requires forall p :: 0 <= p < pc ==> StepSafe(g, root, p, |g.nodes[p].outputs|)
    ensures v < |root| && root[v] in Defined(g, pc)
  {
    hide WellFormed, StepSafe;
    DefinedInRange(g, pc, v);
    if pc > 0 {
      if v in Defined(g, pc - 1) {
        RootIsDefined(g, root, pc - 1, v);
      } else {
        OutputRoot(g, root, pc - 1, v);
        if x :| x in Defined(g, pc - 1) && x < |root| && root[x] == root[v] {
          RootIsDefined(g, root, pc - 1, x);
        }
      }
    }
  }

  // ----- the root's definition is on the schedule and its release is not

  lemma ScheduleStep(g: Graph, plan: Plan, pc: nat)
    requires pc < |g.nodes|
    ensures Schedule(g, plan, pc + 1) == During(g, plan, pc) + Releases(Freed(plan, pc))
  {
    hide Defines, Releases, Freed, Existing;
  }

  lemma {:induction false} DuringGrows(g: Graph, plan: Plan, p: nat, q: nat)
    requires p < q <= |g.nodes|
    ensures |During(g, plan, p)| <= |Schedule(g, plan, q)|
    ensures Schedule(g, plan, q)[..|During(g, plan, p)|] == During(g, plan, p)
  {
    hide Schedule, Defines, Releases, Freed, Existing;
    ScheduleStep(g, plan, q - 1);
    if p < q - 1 {
      DuringGrows(g, plan, p, q - 1);
      var n := |During(g, plan, p)|;
      assert Schedule(g, plan, q)[..n] == Schedule(g, plan, q - 1)[..n];
    }
  }

  lemma {:induction false} DefinedIsScheduled(g: Graph, plan: Plan, pc: nat, r: nat) returns (i: nat)
    requires pc < |g.nodes| && r in Defined(g, pc + 1) && r !in Sources(g)
    ensures i < |During(g, plan, pc)| && During(g, plan, pc)[i] == Define(r)
  {
    hide Schedule, Existing, Sources;
    var outs := Existing(g.nodes[pc].outputs);
    if r in outs {
      var k :| 0 <= k < |outs| && outs[k] == r;
      i := |Schedule(g, plan, pc)| + k;
    } else {
      assert r in Defined(g, pc);
      i := DefinedIsScheduled(g, plan, pc - 1, r);
      DuringGrows(g, plan, pc - 1, pc);
      assert During(g, plan, pc)[i] == Schedule(g, plan, pc)[i] == During(g, plan, pc - 1)[i];
    }
  }

  /** The k-th event of a step is an earlier one, or a definition, or the release of something the step gives up. */
  lemma EventAt(g: Graph, plan: Plan, pc: nat, k: nat)
    requires pc < |g.nodes| && k < |Schedule(g, plan, pc + 1)| && Schedule(g, plan, pc + 1)[k].Release?
    ensures var e, before := Schedule(g, plan, pc + 1)[k], Schedule(g, plan, pc);
            (k < |before| && e == before[k]) || (k >= |During(g, plan, pc)| && e.v in Freed(plan, pc))
  {
    hide Schedule, Freed, Existing;
    ScheduleStep(g, plan, pc);
    var n := |During(g, plan, pc)|;
    if k < n {
      assert Schedule(g, plan, pc + 1)[k] == During(g, plan, pc)[k];
    } else {
      assert Schedule(g, plan, pc + 1)[k] == Releases(Freed(plan, pc))[k - n];
    }
  }

  /** Whatever is released on the schedule was given up by a step of the plan. */
  lemma {:induction false} ReleasedByStep(g: Graph, plan: Plan, pc: nat, k: nat) returns (q: nat)
    requires pc <= |g.nodes| && k < |Schedule(g, plan, pc)| && Schedule(g, plan, pc)[k].Release?
    ensures q < pc && Schedule(g, plan, pc)[k].v in Freed(plan, q)
  {
    hide *;
    NothingScheduled(g, plan);
    EventAt(g, plan, pc - 1, k);
    if k < |Schedule(g, plan, pc - 1)| && Schedule(g, plan, pc)[k] == Schedule(g, plan, pc - 1)[k] {
      q := ReleasedByStep(g, plan, pc - 1, k);
    } else {
      q := pc - 1;
    }
  }

  lemma FreedIsDead(g: Graph, plan: Plan, q: nat, r: nat, v: nat)
    requires SafePlan(g, plan) && q < |g.nodes| && r in Freed(plan, q) && v < |plan.alloc| && RootMap(plan)[v] == r
    ensures Dead(g, v, q + 1)
  {
    var root := RootMap(plan);
    assert RangeSafe(g, plan, root, q);
    var step := plan.steps[q];
    var k :| 0 <= k < |Freed(plan, q)| && Freed(plan, q)[k] == r;
    assert PlanSafety.InRange(step, step.freeFrom + k);
    assert plan.toBeFreed[step.freeFrom + k] == r;
    assert ReleaseSafe(g, root, q, r);
  }

  /** No step before the one that needs v gives up the buffer v lives in. */
  lemma NotReleasedYet(g: Graph, plan: Plan, pc: nat, v: nat, k: nat)
    requires SafePlan(g, plan) && pc < |g.nodes| && v < |plan.alloc| && !Dead(g, v, pc)
    requires k < |During(g, plan, pc)|
    ensures During(g, plan, pc)[k] != Release(RootMap(plan)[v])
  {
    hide SafePlan, Freed, Dead;
    if During(g, plan, pc)[k] == Release(RootMap(plan)[v]) {
      var q := ReleasedByStep(g, plan, pc, k);
      FreedIsDead(g, plan, q, RootMap(plan)[v], v);
      DeadStaysDead(g, v, q + 1, pc);
      assert false;
    }
  }

  lemma SafeParts(g: Graph, plan: Plan)
    requires SafePlan(g, plan)
    ensures var root := RootMap(plan);
            && Covers(g, root) && (forall w :: 0 <= w < |root| && IsSource(g, w) ==> root[w] == w)
            && forall p :: 0 <= p < |g.nodes| ==> StepSafe(g, root, p, |g.nodes[p].outputs|)
  {
    hide StepSafe, RangeSafe;
  }

  /** While a value is needed, the buffer it lives in counts as in use in the traced schedule. */
  lemma RootIsLive(g: Graph, plan: Plan, pc: nat, v: nat) returns (i: nat)
    requires WellFormed(g) && SafePlan(g, plan) && pc < |g.nodes| && NeededAt(g, pc, v)
    requires v < |plan.alloc| ==> RootMap(plan)[v] !in Sources(g)
    ensures v < |plan.alloc| && i < |During(g, plan, pc)| && |During(g, plan, pc)| <= |Schedule(g, plan, |g.nodes|)|
    ensures var sched := Schedule(g, plan, |g.nodes|);
            sched[i] == Define(RootMap(plan)[v]) && LiveAt(sched, i, |During(g, plan, pc)|)
  {
    hide WellFormed, SafePlan, StepSafe, Dead, Defined, Schedule, Sources, IsSource;
    var root, sched := RootMap(plan), Schedule(g, plan, |g.nodes|);
    SafeParts(g, plan);
    RootIsDefined(g, root, pc + 1, v);
    i := DefinedIsScheduled(g, plan, pc, root[v]);
    DuringGrows(g, plan, pc, |g.nodes|);
    forall k | i < k < |During(g, plan, pc)|
      ensures sched[k] != Release(root[v])
    {
      NotReleasedYet(g, plan, pc, v, k);
    }
  }

  // ----- where a value lives, through its root

  /** The placement of the buffer v lives in; buffers from outside the graph are never in the chunk. */
  ghost function HomeOf(plan: Plan, places: map<nat, Placement>, v: nat): Placement
    requires v < |plan.alloc|
  {
    var r := RootMap(plan)[v];
    if r in places then places[r] else OwnBuffer
  }

  /** Values needed at the same time share a block of the chunk only if the plan made them share a buffer. */
  ghost predicate PlannedApart(g: Graph, plan: Plan, places: map<nat, Placement>, chunk: nat) {
    forall pc: nat, u: nat, v: nat ::
      pc < |g.nodes| && u < |plan.alloc| && v < |plan.alloc| && NeededAt(g, pc, u) && NeededAt(g, pc, v)
      && RootMap(plan)[u] != RootMap(plan)[v] ==>
        Apart(HomeOf(plan, places, u), HomeOf(plan, places, v), chunk)
  }

  lemma PlacedIsNoSource(g: Graph, plan: Plan, places: map<nat, Placement>, chunk: nat, r: nat)
    requires WellFormed(g) && AllApart(Schedule(g, plan, |g.nodes|), places, chunk) && r in places
    ensures r !in Sources(g)
  {
    var i: nat :| i < |Schedule(g, plan, |g.nodes|)| && Schedule(g, plan, |g.nodes|)[i] == Define(r);
    StepOf(g, plan, |g.nodes|, i);
  }

  lemma {:induction false} StepOf(g: Graph, plan: Plan, pc: nat, i: nat)
    requires WellFormed(g) && pc <= |g.nodes| && i < |Schedule(g, plan, pc)| && Schedule(g, plan, pc)[i].Define?
    ensures Schedule(g, plan, pc)[i].v !in Sources(g)
  {
    hide *;
    NothingScheduled(g, plan);
    ScheduledAt(g, plan, pc - 1, i);
    if i < |Schedule(g, plan, pc - 1)| {
      StepOf(g, plan, pc - 1, i);
    } else {
      OutputIsNoSource(g, pc - 1, Schedule(g, plan, pc)[i].v);
    }
  }

  lemma OutputIsNoSource(g: Graph, pc: nat, v: nat)
    requires WellFormed(g) && pc < |g.nodes| && v in Existing(g.nodes[pc].outputs)
    ensures v !in Sources(g)
  {
    assert NodeOk(g, pc);
    DefinedGrows(g, 0, pc);
  }

  /** Schedule-live values being apart is enough for all values the plan keeps alive. */
  lemma ApartAsPlanned(g: Graph, plan: Plan, places: map<nat, Placement>, chunk: nat)
    requires WellFormed(g) && SafePlan(g, plan) && AllApart(Schedule(g, plan, |g.nodes|), places, chunk)
    ensures PlannedApart(g, plan, places, chunk)
  {
    hide WellFormed, SafePlan, Schedule, NeededAt, Apart, Sources, LiveAt;
    forall pc: nat, u: nat, v: nat
      | pc < |g.nodes| && u < |plan.alloc| && v < |plan.alloc| && NeededAt(g, pc, u) && NeededAt(g, pc, v)
        && RootMap(plan)[u] != RootMap(plan)[v]
      ensures Apart(HomeOf(plan, places, u), HomeOf(plan, places, v), chunk)
    {
      if RootMap(plan)[u] in places && RootMap(plan)[v] in places {
        PlacedIsNoSource(g, plan, places, chunk, RootMap(plan)[u]);
        PlacedIsNoSource(g, plan, places, chunk, RootMap(plan)[v]);
        var i := RootIsLive(g, plan, pc, u);
        var j := RootIsLive(g, plan, pc, v);
      } else {
        NotInChunk(HomeOf(plan, places, u), HomeOf(plan, places, v), chunk);
      }
    }
  }

  lemma NotInChunk(a: Placement, b: Placement, chunk: nat)
    requires a.OwnBuffer? || b.OwnBuffer?
    ensures Apart(a, b, chunk)
  {
  }

  // ----- a run of a planned graph

  /** Values with a buffer of their own, as far as the frame traces them at all. */
  function Owned(plan: Plan, traced: Traced): Traced {
    (v: nat) => traced(v) && v < |plan.alloc| && plan.alloc[v].kind.Allocate?
  }

  /** Value v is an output of some step. */
  ghost predicate IsProduced(g: Graph, v: nat) {
    exists pc :: 0 <= pc < |g.nodes| && v in Existing(g.nodes[pc].outputs)
  }

  /**
   Every output has a place.  Only what the plan allocates and the frame traces goes into the chunk, and its block has
   the size asked for; a pattern traced with the same sizes takes all of it.
   */
  ghost predicate PlacedAsPlanned(g: Graph, plan: Plan, size: Sizes, traced: Traced, cached: Option<Pattern>,
                                  places: map<nat, Placement>) {
    && (forall v :: v in places <==> IsProduced(g, v))
    && (forall v :: v in places && places[v].InChunk? ==>
          cached.Some? && traced(v) && v < |plan.alloc| && plan.alloc[v].kind.Allocate?
          && places[v].block.size == size(v))
    && (cached == Some(FinalPattern(Schedule(g, plan, |g.nodes|), size, Owned(plan, traced))) ==>
          forall v :: v in places && traced(v) && v < |plan.alloc| && plan.alloc[v].kind.Allocate? ==>
            places[v].InChunk?)
  }

  lemma {:induction false} ScheduledIsProduced(g: Graph, plan: Plan, pc: nat, i: nat)
    requires pc <= |g.nodes| && i < |Schedule(g, plan, pc)| && Schedule(g, plan, pc)[i].Define?
    ensures IsProduced(g, Schedule(g, plan, pc)[i].v)
  {
    hide Schedule, Existing;
    NothingScheduled(g, plan);
    ScheduledAt(g, plan, pc - 1, i);
    if i < |Schedule(g, plan, pc - 1)| { ScheduledIsProduced(g, plan, pc - 1, i); }
  }

  lemma {:induction false} ProducedIsScheduled(g: Graph, plan: Plan, pc: nat, n: nat, v: nat)
    requires pc < n <= |g.nodes| && v in Existing(g.nodes[pc].outputs)
    ensures Define(v) in Schedule(g, plan, n)
    decreases n
  {
    hide Existing, Schedule, Releases, Freed, Defines;
    ScheduleStep(g, plan, n - 1);
    if pc < n - 1 {
      ProducedIsScheduled(g, plan, pc, n - 1, v);
    } else {
      DefinesAll(Existing(g.nodes[pc].outputs), v);
    }
  }

  lemma DefinesAll(vs: seq<nat>, v: nat)
    requires v in vs
    ensures Define(v) in Defines(vs)
  {
    var k :| 0 <= k < |vs| && vs[k] == v;
    assert Defines(vs)[k] == Define(v);
  }

  /** Everything defined has the place that the pattern gives it. */
  ghost predicate PlacedBy(sched: seq<Event>, size: Sizes, traced: Traced, p: Option<Pattern>,
                           places: map<nat, Placement>) {
    forall i :: 0 <= i < |sched| && sched[i].Define? ==>
      && sched[i].v in places
      && places[sched[i].v] == PlaceOf(p, sched[i].v, size(sched[i].v), traced(sched[i].v))
  }

  lemma PlacedIsProduced(g: Graph, plan: Plan, size: Sizes, traced: Traced, p: Option<Pattern>,
                         places: map<nat, Placement>, chunk: nat, v: nat)
    requires var sched := Schedule(g, plan, |g.nodes|);
             && DefinedOnce(sched) && AllApart(sched, places, chunk) && PlacedBy(sched, size, traced, p, places)
    requires v in places
    ensures IsProduced(g, v) && places[v] == PlaceOf(p, v, size(v), traced(v))
    ensures p == Some(FinalPattern(Schedule(g, plan, |g.nodes|), size, traced)) && traced(v) ==> places[v].InChunk?
  {
    hide Schedule, DefinedOnce, FinalPattern, PlaceOf, Apart, IsProduced;
    var sched := Schedule(g, plan, |g.nodes|);
    var i: nat :| i < |sched| && sched[i] == Define(v);
    ScheduledIsProduced(g, plan, |g.nodes|, i);
    InChunkExactlyIf(sched, size, traced, i, size(v));
  }

  lemma ProducedIsPlaced(g: Graph, plan: Plan, size: Sizes, traced: Traced, p: Option<Pattern>,
                         places: map<nat, Placement>, v: nat)
    requires PlacedBy(Schedule(g, plan, |g.nodes|), size, traced, p, places) && IsProduced(g, v)
    ensures v in places
  {
    hide Schedule, PlaceOf;
    var pc :| 0 <= pc < |g.nodes| && v in Existing(g.nodes[pc].outputs);
    ProducedIsScheduled(g, plan, pc, |g.nodes|, v);
  }

  lemma ArePlacedAsPlanned(g: Graph, plan: Plan, size: Sizes, traced: Traced, p: Option<Pattern>,
                           places: map<nat, Placement>, chunk: nat)
    requires var sched := Schedule(g, plan, |g.nodes|);
             && DefinedOnce(sched) && AllApart(sched, places, chunk)
             && PlacedBy(sched, size, Owned(plan, traced), p, places)
    ensures PlacedAsPlanned(g, plan, size, traced, p, places)
  {
    hide FinalPattern, Schedule, AllApart, DefinedOnce, IsProduced, PlacedBy;
    forall v: nat
      ensures v in places <==> IsProduced(g, v)
      ensures v in places ==> places[v] == PlaceOf(p, v, size(v), Owned(plan, traced)(v))
      ensures v in places && Owned(plan, traced)(v)
              && p == Some(FinalPattern(Schedule(g, plan, |g.nodes|), size, Owned(plan, traced)))
              ==> places[v].InChunk?
    {
      if v in places { PlacedIsProduced(g, plan, size, Owned(plan, traced), p, places, chunk, v); }
      if IsProduced(g, v) { ProducedIsPlaced(g, plan, size, Owned(plan, traced), p, places, v); }
    }
  }

  /**
   A run that follows a safe plan, with or without a cached pattern: no two values needed at the same time overlap
   in the chunk unless the plan put them into the same buffer, and the cache stays good for every later run.
   */
  method RunPlanned(session: SessionState, shapes: seq<Shape>, g: Graph, plan: Plan, size: Sizes, traced: Traced)
    returns (places: map<nat, Placement>, chunk: nat)
    requires WellFormed(g) && SafePlan(g, plan)
    requires CacheOk(session.memPatterns, Schedule(g, plan, |g.nodes|), Owned(plan, traced))
    modifies session
    ensures CacheOk(session.memPatterns, Schedule(g, plan, |g.nodes|), Owned(plan, traced))
    ensures Key(shapes) in session.memPatterns
    ensures PlannedApart(g, plan, places, chunk)
    ensures var cache, key := old(session.memPatterns), Key(shapes);
            PlacedAsPlanned(g, plan, size, traced, if key in cache then Some(cache[key]) else None, places)
  {
    hide WellFormed, SafePlan, Schedule, AllApart, CacheOk, PlannedApart, DefinedOnce, PlacedAsPlanned,
      FinalPattern, PlaceOf;
    ghost var cache := session.memPatterns;
    ScheduleDefinesOnce(g, plan, |g.nodes|);
    places, chunk := Run(session, shapes, Schedule(g, plan, |g.nodes|), size, Owned(plan, traced));
    ApartAsPlanned(g, plan, places, chunk);
    ArePlacedAsPlanned(g, plan, size, traced, if Key(shapes) in cache then Some(cache[Key(shapes)]) else None, places,
                       chunk);
  }
}
