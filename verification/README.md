# ONNX Runtime: memory planning, execution and selection, verified

A Dafny model of the parts of ONNX Runtime in which several pieces of state must agree over a whole run:
the static memory planner and the sequential executor that trusts its plan, the parallel executor, the
memory pattern planner and its cache, the best-fit arena, and three kernels (tokenizer, UTF-8 validator,
non-max suppression).

| files | what they model |
|---|---|
| `Graph`, `PlanSafety`, `PlannerInvariant`, `Placement`, `PlannerSteps`, `PlannerSpec`, `PlannerRun`, `PlannerExact`, `Planner`, `PlanDecisions` | graphs, execution plans, the planner's decisions as functions, and `PlannerImpl` with its use counts, buffer map and freelist |
| `Kernels`, `HonestKernels`, `SharedRun`, `ExecutorSpec`, `SafeRun`, `SequentialExecutor`, `PlanTheorems`, `PlanCounterexamples` | kernels that honour Alias and MayInplace, the execution frame, the run over shared buffers |
| `ParallelExecutor`, `ParallelInvariant`, `ParallelTheorems`, `ParallelOrdering`, `ParallelSharing`, `ParallelCounterexample` | the parallel executor as interleaved steps under an arbitrary scheduler, and what it does to shared buffers |
| `MemPattern`, `MemPatternTheorems`, `MemPatternBounds`, `PatternCache`, `PatternLifetimes`, `PatternExecution` | offsets traced over a run, their replay from the session's cache, and the trace against the executor |
| `BfcRegions`, `BfcChunks`, `BfcBins`, `BfcState`, `BfcSizes`, `BfcPolicy`, `BfcArena`, `BfcTheorems` | the best-fit-with-coalescing arena |
| `TernaryTree`, `SeparatorTokenizer`, `Utf8`, `NonMaxSuppression` | text and selection kernels |

Main results:

- **Sharing preserves meaning.** `PlanAndExecute`: planning a well-formed graph and then running over the shared
  buffers gives exactly what the run with one buffer per value gives, including where it fails, for all kernels that
  honour their declarations. The planner's use counts are exact at every step, and a buffer is on the freelist exactly
  when no remaining event needs it. `DecidedExactly` and `PlanRecords` say which buffer every output gets.
- **When sharing is safe.** `SafeExactlyIfClean`: for every well-formed graph, the plan is safe exactly if no lookup was
  misdirected by a missing output, no two outputs of a node clash and none aliases something that is no tensor.
  `GapsGoWrong`, `MixedPairsGoWrong` and `AliasedSequenceGoesWrong` are runs that go wrong otherwise.
- **Every interleaving of the parallel executor** runs each node at most once, after its predecessors, never gets
  stuck, ends, and computes the sequential results; two nodes are kept in order exactly if one is an ancestor of
  the other (`OrderedExactlyIfAncestor`). With the buffers the planner shares, every node reads the right contents in
  every interleaving exactly if all earlier readers of an overwritten buffer are ancestors of the overwriting node
  (`ReadsRightExactlyIf`, `DiamondGoesWrong`).
- **Patterns are safe to replay**, even for shapes they were not traced with: values a safe plan still needs stay
  apart, whether they own their buffer or share one (`RunPlanned`). The peak lies between the largest total of live
  bytes and the sum of all traced bytes, and is the largest end of any block. `BlocksAreHeld`: at every step the blocks
  in use are those of the buffers the executor holds.
- **The arena's parts agree after every operation**: tiling, links, tables, bins, recycled handles and counters.
  Allocation is globally best fit and fails exactly when neither a chunk nor the limit nor the device leaves room,
  freeing everything restores whole regions, and no two callers hold the same byte.
- **The kernels meet independent specifications**: lowest-ranked stored prefix, matches and gaps that rebuild the
  input and the exact condition for the matches to be maximal (`MaximalExactlyIf`), the grammar of section 4 of
  RFC 3629 up to one stated difference, and a greedy selection that is unique when scores differ.

How the world outside is modelled: kernels are a pair of functions (what is computed, what happens to memory) that
must obey their Alias and MayInplace declarations; the device allocator is a function from request number and size
to an address or zero, and hands out only memory the arena does not hold; the thread pool may take any enabled step;
shapes are taken as inferred, and contents have the sizes inferred for them, with some value for every named dimension; the priority queue may break ties in
any way. Handles and indices are unbounded integers; where `size_t` wraps in a way callers can observe
(`RoundedBytes`, the bytes left below the limit) the wrap is written out.

Where code and description differ, the model follows the code:

- The deallocation plan never releases buffers that become free after the first step (`ReleasedExactlyOnce`).
- Output numbers are not advanced over missing outputs, so pairs are looked up under the right number exactly if
  missing outputs trail (`ArgNumberIsPosition`, `GapsGoWrong`).
- An input overwritten by one output and aliased by a later one of the same node gives a wrong outcome
  (`MixedPairsGoWrong`), and an alias of something that is no tensor makes the run break off
  (`AliasedSequenceGoesWrong`). There are no other cases (`SafeExactlyIfClean`).
- In-place sharing stays on in parallel mode although only ancestors are kept first (`DiamondGoesWrong`).
- The arena respects its limit exactly as long as reservations have not passed it (`AvailableWithinLimit`).
- Backing off stops shrinking at nine grains (`GivesUpExactlyAboveFloor`, `EndsExactlyIf`).
- The tokenizer drops short gaps but not a short rest after the last separator, and a match that lost to one thrown
  out later is not reconsidered (`TokensAreLong`, `LostMatchesStayLost`, `MaximalExactlyIf`).
- The validator accepts lead bytes C0 and C1 (`OnlyOverlongDiffers`).

## Model

| member | source | states |
|---|---|---|
| `PlanTheorems.PlanAndExecute` | onnxruntime/core/framework/allocation_planner.cc:451-536 | planning and running over shared buffers gives the outcome of the run without sharing, for every well-formed graph whose plan is clean, every feed and all honest kernels; there is no plan exactly if a kernel is missing |
| `Planner.PlannerImpl.CreatePlan` | onnxruntime/core/framework/allocation_planner.cc:576-599 | a plan exists exactly if every node has a kernel; it is a function of the graph, its release ranges are the freelist cut by step, and it is safe to follow blindly exactly if the walk was clean |
| `Planner.PlannerImpl.ReuseBuffer` | onnxruntime/core/framework/allocation_planner.cc:180-193 | the new value joins the root of the reused one, which takes over its uses; nothing else changes |
| `Planner.PlannerImpl.FindReusableInput` | onnxruntime/core/framework/allocation_planner.cc:196-239 | the first alias pair that applies, else the first in-place pair whose input is its buffer's last use and has the same size; none exactly if no pair applies |
| `Planner.PlannerImpl.FindReusableTensor` | onnxruntime/core/framework/allocation_planner.cc:296-319 | takes the first free buffer of the same size and place off the list, or says there is none and changes nothing |
| `GraphModel.SameSizeExactly` | onnxruntime/core/framework/allocation_planner.cc:241-289 | two values count as equally big exactly if both are tensors with complete inferred shapes and equally big elements whose dimensions agree one by one for every value of the named dimensions |
| `GraphModel.SameSizeSameBytes` | onnxruntime/core/framework/allocation_planner.cc:241-289 | so they need equally many bytes (element size times the product of the dimensions) whatever the named dimensions turn out to be |
| `PlanDecisions.DecidedExactly` | onnxruntime/core/framework/allocation_planner.cc:484-506 | which of own, aliased, in place, recycled or new it is, exactly, from what is declared, still needed and free; only a sequential plan recycles, and only in the same place; no chance to share is missed |
| `PlanDecisions.PlanRecords` | onnxruntime/core/framework/allocation_planner.cc:484-506 | the finished plan says of every output what was decided at its turn, with the root of the buffer it joined |
| `PlanDecisions.SourcesRecorded` | onnxruntime/core/framework/allocation_planner.cc:422-475 | the kinds of the values from outside: static exactly for weights that some node reads, supplied by the caller exactly for the other inputs and outer values |
| `Planner.PlannerImpl.PlanOutput` | onnxruntime/core/framework/allocation_planner.cc:484-506 | the searches and updates for one output have the effect the specification decides: own, aliased, in place or recycled |
| `Planner.PlannerImpl.ProcessDef` | onnxruntime/core/framework/allocation_planner.cc:173-178 | resets one value to no uses and its own buffer |
| `Planner.PlannerImpl.CountSources` | onnxruntime/core/framework/allocation_planner.cc:335-353 | every value from outside has exactly one hold, however often it is listed |
| `Planner.PlannerImpl.CountUses` | onnxruntime/core/framework/allocation_planner.cc:357-365 | adds one use per present argument |
| `Planner.PlannerImpl.CountDefinitions` | onnxruntime/core/framework/allocation_planner.cc:386-403 | outputs start with their pending definition and their own buffer |
| `Planner.PlannerImpl.CountStep` | onnxruntime/core/framework/allocation_planner.cc:355-413 | one step's uses and definitions are all counted |
| `Planner.PlannerImpl.ComputeUseCounts` | onnxruntime/core/framework/allocation_planner.cc:332-420 | fails exactly if a kernel is missing; otherwise each count is the number of events that touch the value plus the caller's holds |
| `Planner.PlannerImpl.CountHeldOutputs` | onnxruntime/core/framework/allocation_planner.cc:415-417 | graph outputs get one hold per listing |
| `Planner.PlannerImpl.SetupPreexisting` | onnxruntime/core/framework/allocation_planner.cc:456-473 | marks exactly the listed values as supplied by the caller |
| `Planner.PlannerImpl.GeneratePlanForWeights` | onnxruntime/core/framework/allocation_planner.cc:422-449 | marks exactly the weights that some node reads as statically allocated |
| `Planner.PlannerImpl.InitializeAlloc` | onnxruntime/core/framework/allocation_planner.cc:463-475 | the allocation kind of every value before any step is planned |
| `Planner.PlannerImpl.ReleaseArgs` | onnxruntime/core/framework/allocation_planner.cc:508-534 | ends one event per present argument, in order |
| `Planner.PlannerImpl.PlanStep` | onnxruntime/core/framework/allocation_planner.cc:477-535 | a whole step takes the specified state from one step to the next |
| `Planner.PlannerImpl.ComputeReusePlan` | onnxruntime/core/framework/allocation_planner.cc:451-536 | the counted graph leads to the specified last state |
| `Planner.PlannerImpl.GenerateDeallocationPlan` | onnxruntime/core/framework/allocation_planner.cc:540-566 | the freed buffers oldest first, and for every step the range of exactly the entries with that deallocation point, empty for the first step |
| `Planner.SafeExactlyIfClean` | onnxruntime/core/framework/allocation_planner.cc:196-239 | with all kernels present, the plan is safe exactly if every output that takes over an input's buffer has a pair of its own position offering it, outputs of a node take the same buffer only if all are declared to alias it, and no output aliases something that is no tensor |
| `PlannerExact.CleanStepExactlyIf` | onnxruntime/core/framework/allocation_planner.cc:196-239 | where missing outputs trail, that comes down to this: no output overwrites in place a buffer that a later output of the same node takes by alias, and none aliases something that is no tensor |
| `PlannerRun.AlwaysReady` | onnxruntime/core/framework/allocation_planner.cc:451-536 | exact use counts, buffer map, freelist and plan table agree before every step, for every graph; in a clean walk every placement so far is safe |
| `PlannerRun.PlaceDecided` | onnxruntime/core/framework/allocation_planner.cc:484-506 | every way of placing an output keeps that agreement, and a clean one the safety of the step |
| `PlannerRun.EarlierIsAliased` | onnxruntime/core/framework/allocation_planner.cc:204-237 | whoever shares a buffer that a later output of the node takes aliases it, unless there is a clash |
| `PlannerExact.ClashIsUnsafe` | onnxruntime/core/framework/allocation_planner.cc:204-237 | two outputs that clash end up in one buffer, which not both are declared to alias |
| `PlannerExact.MisdirectedIsUnsafe` | onnxruntime/core/framework/allocation_planner.cc:483-505 | an output that takes a buffer under a wrong number, which no pair of its own position offers, is not placed safely |
| `PlannerExact.NonTensorIsUnsafe` | onnxruntime/core/framework/allocation_planner.cc:204-217 | an alias of something that is no tensor ends up as reuse of something that is no tensor |
| `PlannerExact.SharableIsClean` | onnxruntime/core/framework/allocation_planner.cc:196-239 | a condition on the kernel declarations alone that makes every walk clean |
| `PlannerInvariant.FreeExactlyWhenUnused` | onnxruntime/core/framework/allocation_planner.cc:508-534 | a buffer is on the freelist exactly if it is a root that no remaining event needs through any of its sharers |
| `PlannerInvariant.KeepOwnBuffer` | onnxruntime/core/framework/allocation_planner.cc:489-503 | defining a value in its own buffer keeps the invariant |
| `PlannerInvariant.ShareBuffer` | onnxruntime/core/framework/allocation_planner.cc:180-193 | joining a buffer keeps counts, buffer map and freelist in agreement |
| `PlannerInvariant.ReleaseEvent` | onnxruntime/core/framework/allocation_planner.cc:508-515 | ending one event keeps the invariant; an entry that appears names a root dead from then on |
| `PlannerSpec.ArgNumberIsPosition` | onnxruntime/core/framework/allocation_planner.cc:483-505 | the output number used for lookups is the position of every present output exactly if missing outputs trail |
| `Placement.PlaceAlias` | onnxruntime/core/framework/allocation_planner.cc:204-217 | an aliased output is placed safely and apart from the other outputs of the step, if those in its buffer alias it too |
| `Placement.PlaceInplace` | onnxruntime/core/framework/allocation_planner.cc:219-237 | a use count of one means that input is the only reader and all sharers are dead after the step |
| `Placement.PlaceRecycled` | onnxruntime/core/framework/allocation_planner.cc:296-319 | a buffer from the freelist has only dead values in it |
| `Placement.PlaceFresh` | onnxruntime/core/framework/allocation_planner.cc:489-503 | a new buffer is shared with nothing |
| `PlanTheorems.ReleasedExactlyOnce` | onnxruntime/core/framework/allocation_planner.cc:540-566 | a freed buffer is released during the run exactly if it became free after the first step, and then by one step only |
| `PlanCounterexamples.MixedPairsGoWrong` | onnxruntime/core/framework/allocation_planner.cc:196-239 | a graph in which one output overwrites what a later one aliases: every plan the planner makes for it gives another outcome than the run without sharing, with honest kernels and right shapes |
| `PlanCounterexamples.GapsGoWrong` | onnxruntime/core/framework/allocation_planner.cc:483-505 | a graph with a missing output in front and a misdirected lookup: every plan the planner makes for it overwrites a graph output, with honest kernels and right shapes |
| `PlanCounterexamples.AliasedSequenceGoesWrong` | onnxruntime/core/framework/allocation_planner.cc:204-217 | a graph with an alias of something that is no tensor: the run of every plan the planner makes for it breaks off, with honest kernels and right shapes |
| `HonestKernels.WriterHonours` | include/onnxruntime/core/framework/kernel_def_builder.h:178-192 | any operators that repeat their aliased inputs have honest kernels: those that write their results in order |
| `SequentialExecutor.ExecutionFrame.Buffers` | onnxruntime/core/framework/execution_frame.cc:437-441 | the buffers behind a list of arguments, or nothing exactly if one of them is not in memory |
| `SequentialExecutor.ExecutionFrame.AllocateAsPerAllocationPlan` | onnxruntime/core/framework/execution_frame.cc:254-309 | by slot and memory: a filled slot only has its length verified, an owner gets a new zeroed buffer and all other memory stays, a sharer gets the slot contents of the reused tensor and no memory changes; the exact conditions of failure, in which nothing changes |
| `ExecutorSpec.GrantedMemory` | onnxruntime/core/framework/execution_frame.cc:254-309 | memory granted has the length asked for; a tensor without a slot is granted it only if the plan allocates it or lets it reuse a buffer, and a reused buffer is shared with its contents |
| `SequentialExecutor.ExecutionFrame.ReleaseMLValue` | onnxruntime/core/framework/execution_frame.cc:493-500 | empties the slot and frees the value's own buffer; indices out of range are refused |
| `SequentialExecutor.AllocateOutputs` | onnxruntime/core/framework/execution_frame.cc:464-490 | the outputs of a step are granted one after the other, up to the first that cannot be |
| `SequentialExecutor.ReleaseNodeMLValues` | onnxruntime/core/framework/sequential_executor.cc:221-232 | the inclusive range of a step is released in order: exactly the slots named and their buffers are gone, all else is as it was; entries out of range are refused |
| `ExecutorSpec.ReleasedExactly` | onnxruntime/core/framework/sequential_executor.cc:221-232 | a range can be released exactly if every entry of it names a slot; then exactly the slots named in it are empty and their buffers freed |
| `ExecutorSpec.StepReleases` | onnxruntime/core/framework/sequential_executor.cc:53-161 | after a step nothing it released has a slot or a buffer, and no other slot that was filled has changed |
| `SequentialExecutor.RunStep` | onnxruntime/core/framework/sequential_executor.cc:53-161 | read, allocate, compute and release, for any plan and any kernels |
| `SequentialExecutor.Execute` | onnxruntime/core/framework/sequential_executor.cc:29-190 | the outcome of any plan with any kernels is the specified one, and for a safe plan and honest kernels that of the run without sharing |
| `SequentialExecutor.FetchOutputs` | onnxruntime/core/framework/sequential_executor.cc:192-219 | the graph outputs, if all of them are in memory |
| `SafeRun.SafeRunIsReference` | onnxruntime/core/framework/sequential_executor.cc:29-190 | following any safe plan over shared buffers gives the outcome of the run without sharing, failures included |
| `SafeRun.StepFollows` | onnxruntime/core/framework/sequential_executor.cc:53-161 | one step over shared buffers does what the step without sharing does |
| `SafeRun.AllocateWorks` | onnxruntime/core/framework/execution_frame.cc:254-309 | every output of a step gets memory; a reused root is always still allocated, a tensor, and of the right size |
| `SafeRun.ReleaseWorks` | onnxruntime/core/framework/sequential_executor.cc:221-232 | releasing the range of a step keeps the frame in agreement with the run without sharing |
| `SharedRun.StepMatches` | onnxruntime/core/framework/sequential_executor.cc:118-118 | after a kernel has written its outputs, every value still needed is where and what the reference run says |
| `SharedRun.OverwriteHarmless` | onnxruntime/core/framework/allocation_planner.cc:204-237 | a live value whose buffer is written keeps its contents, because only an alias can write it |
| `SharedRun.RootAvailable` | onnxruntime/core/framework/execution_frame.cc:174-199 | a buffer about to be shared has not been released and has the right size |
| `SharedRun.ReleaseMatches` | onnxruntime/core/framework/sequential_executor.cc:221-232 | a released buffer is needed by nobody afterwards |
| `ParallelTheorems.AlwaysInv` | onnxruntime/core/framework/parallel_executor.cc:221-246 | counts, statuses, lock, counter and results agree in every state of every interleaving |
| `ParallelInvariant.StepInv` | onnxruntime/core/framework/parallel_executor.cc:221-246 | every step of every thread keeps that agreement |
| `ParallelInvariant.InitInv` | onnxruntime/core/framework/parallel_executor.cc:24-31 | it holds when the executor has been constructed |
| `ParallelTheorems.RefsCountUnfinished` | onnxruntime/core/framework/parallel_executor.cc:24-31 | whenever the lock is free, `node_refs_` of a node is the number of its input edges from unfinished nodes |
| `ParallelTheorems.StartsOnce` | onnxruntime/core/framework/parallel_executor.cc:223-242 | no node starts twice |
| `ParallelTheorems.RunsAfterPredecessors` | onnxruntime/core/framework/parallel_executor.cc:223-242 | a running node's predecessors have released it and their results are those of sequential evaluation |
| `ParallelTheorems.CounterCountsChains` | onnxruntime/core/framework/parallel_executor.h:47-58 | `out_standings_` is the number of chains queued or running, on normal and failing paths |
| `ParallelTheorems.NeverStuck` | onnxruntime/core/framework/parallel_executor.cc:46-59 | while a chain is outstanding or a root is left, some step can be taken that is no failure of a node with a kernel |
| `ParallelTheorems.ZeroIsFinal` | onnxruntime/core/framework/parallel_executor.cc:55-59 | when the roots are enqueued and the counter is zero nothing can happen any more |
| `ParallelTheorems.RunsAreFinite` | onnxruntime/core/framework/parallel_executor.cc:89-98 | every run has at most as many steps as nodes, edges and roots account for |
| `ParallelTheorems.NotRunExactlyWhenHeldBack` | onnxruntime/core/framework/parallel_executor.cc:46-59 | when all has drained, a node has not run exactly if it is a root without kernel or a predecessor has not finished |
| `ParallelTheorems.AllHaveRun` | onnxruntime/core/framework/parallel_executor.cc:46-59 | without failures zero means every node has run, with the results of sequential evaluation |
| `ParallelTheorems.Deterministic` | onnxruntime/core/framework/parallel_executor.cc:100-246 | any two failure-free runs end with the same results |
| `ParallelOrdering.OrderedExactlyIfAncestor` | onnxruntime/core/framework/parallel_executor.cc:223-242 | one node's result is there before another's in every interleaving exactly if it is an ancestor |
| `ParallelOrdering.RunWithout` | onnxruntime/core/framework/parallel_executor.cc:223-242 | for any node that is not an ancestor there is a run in which the other finishes first |
| `ParallelOrdering.RunUntil` | onnxruntime/core/framework/parallel_executor.cc:223-242 | a failure-free run can be continued until any given node has its result |
| `ParallelOrdering.ComputedOnceInOrder` | onnxruntime/core/framework/parallel_executor.cc:223-242 | a node is computed at most once, after all its ancestors |
| `ParallelSharing.ReadsRightExactlyIf` | onnxruntime/core/framework/allocation_planner.cc:495-500 | with a plan made for parallel execution, every node reads the contents the sequential run would let it read, in every interleaving, exactly if all earlier readers of an overwritten buffer are ancestors of the node that overwrites it |
| `ParallelSharing.UseAfterWrite` | onnxruntime/core/framework/allocation_planner.cc:180-239 | whoever reads a buffer descends from every node that wrote it earlier in the order |
| `ParallelSharing.WriteEnds` | onnxruntime/core/framework/allocation_planner.cc:219-237 | what lived in a buffer before a node wrote it is read by nobody later in the order |
| `ParallelCounterexample.DiamondGoesWrong` | onnxruntime/core/framework/allocation_planner.cc:495-500 | a graph for which some interleaving reads an overwritten buffer |
| `MemPattern.MemPatternPlanner.TraceAllocation` | onnxruntime/core/framework/mem_pattern_planner.h:31-61 | the loop computes the specified best-fit placement, and the buffer keeps ending at the largest end of any block traced |
| `MemPattern.MemPatternPlanner.TraceFree` | onnxruntime/core/framework/mem_pattern_planner.h:63-70 | drops the first block of the value, if there is one |
| `MemPattern.MemPatternPlanner.GenerateMemPattern` | onnxruntime/core/framework/mem_pattern_planner.h:72-80 | every traced value with its block, and the peak |
| `MemPatternTheorems.BestFit` | onnxruntime/core/framework/mem_pattern_planner.h:37-56 | the search finds the first of the smallest gaps that are large enough, or the end exactly if there is none |
| `MemPatternTheorems.AllocationKeepsLayout` | onnxruntime/core/framework/mem_pattern_planner.h:31-61 | blocks stay sorted, disjoint and below the peak |
| `MemPatternTheorems.FreeKeepsLayout` | onnxruntime/core/framework/mem_pattern_planner.h:63-70 | so do they when one is freed |
| `MemPatternTheorems.LiveTogetherDisjoint` | onnxruntime/core/framework/mem_pattern_planner.h:31-80 | two nonempty values in use at the same time get disjoint ranges inside the chunk, for every schedule and all sizes |
| `MemPatternBounds.PeakBounds` | onnxruntime/core/framework/mem_pattern_planner.h:37-60 | the peak is at least the live bytes at any time and at most the sum of all traced bytes |
| `MemPatternTheorems.PeakIsLargestEnd` | onnxruntime/core/framework/mem_pattern_planner.h:31-70 | after every event of every schedule the buffer size is the largest end of any block traced so far, zero if there is none |
| `MemPatternTheorems.PatternPeak` | onnxruntime/core/framework/mem_pattern_planner.h:72-80 | the pattern's peak is the largest end of any block in it |
| `MemPatternBounds.LiveInUse` | onnxruntime/core/framework/mem_pattern_planner.h:31-70 | after every event the blocks in use are exactly those of the nonempty values defined and not released, and their bytes add up |
| `MemPatternBounds.OffsetsAligned` | onnxruntime/core/framework/mem_pattern_planner.h:37-60 | if all traced sizes are multiples of a number, so are all offsets |
| `PatternCache.CalculateMemoryPatternsKey` | onnxruntime/core/framework/session_state.cc:73-80 | the nested loops compute the fold over all dimensions |
| `PatternCache.KeyIgnoresOrder` | onnxruntime/core/framework/session_state.cc:73-80 | the key is the same for every order of the feeds |
| `PatternCache.KeyIsParity` | onnxruntime/core/framework/session_state.cc:73-80 | a bit of the key is set exactly if an odd number of all dimensions of all feeds have it |
| `PatternCache.KeysCollide` | onnxruntime/core/framework/session_state.cc:73-80 | adding a shape that repeats a dimension never changes the key |
| `PatternCache.SessionState.GetMemoryPatternGroup` | onnxruntime/core/framework/session_state.cc:82-90 | what is stored under the key, if anything |
| `PatternCache.SessionState.UpdateMemoryPatternGroupCache` | onnxruntime/core/framework/session_state.cc:92-103 | the first pattern stored under a key stays, and nothing else changes |
| `PatternCache.ReplayIsSafe` | onnxruntime/core/framework/execution_frame.cc:105-135 | two traced values in use at the same time on the schedule never overlap in the chunk, whatever sizes the pattern was traced with |
| `PatternCache.ReplayPlacesEverything` | onnxruntime/core/framework/execution_frame.cc:105-135 | with the traced sizes every traced value finds its place |
| `PatternCache.InChunkExactlyIf` | onnxruntime/core/framework/execution_frame.cc:105-135 | a value goes into the chunk exactly if it is traced and has the size it was traced with, and then to the block the trace gave it |
| `PatternCache.Run` | onnxruntime/core/framework/sequential_executor.cc:166-183 | a run traces and stores a pattern or replays one; every value gets exactly the place the cached pattern gives it, the chunk the pattern's peak; the cache stays good, keeps its entries, and nothing in use on the schedule overlaps |
| `PatternCache.ScheduleDefinesOnce` | onnxruntime/core/framework/execution_frame.cc:154-163 | the schedule a plan fixes defines every value at most once |
| `PatternLifetimes.RootIsLive` | onnxruntime/core/framework/allocation_planner.cc:508-566 | while a step of a safe plan still needs a value, the buffer it lives in counts as in use on the traced schedule |
| `PatternLifetimes.ApartAsPlanned` | onnxruntime/core/framework/execution_frame.cc:174-199 | so values needed at the same time, sharers included, overlap in the chunk only if the plan put them into one buffer |
| `PatternLifetimes.RunPlanned` | onnxruntime/core/framework/sequential_executor.cc:166-183 | every run of a safely planned graph, tracing or replaying for whatever sizes, keeps values needed at the same time apart and the cache good for the next run; exactly the outputs get places, only allocated and traced ones of the cached size go into the chunk, and all of them if the sizes are the cached ones |
| `PatternExecution.HeldIsLive` | onnxruntime/core/framework/execution_frame.cc:402-424 | after every step of a run of any plan with any kernels that allocate nothing themselves, a traced value the plan allocates has a buffer in the frame exactly if the traced events leave it in use |
| `PatternExecution.BlocksAreHeld` | onnxruntime/core/framework/execution_frame.cc:154-163 | so the pattern planner has a block of the value's size in use exactly while the frame holds its buffer |
| `BfcArena.BFCArena.constructor` | onnxruntime/core/framework/bfc_arena.cc:7-35 | an arena without memory satisfies the invariant |
| `BfcArena.BFCArena.Alloc` | onnxruntime/core/framework/bfc_arena.cc:198-236 | grants the best fit if one exists, else extends; returns null exactly if nothing fits and the limit or the device allows no new region; within the limit a device that grants everything makes it succeed, beyond it only a free chunk does; a chunk is cut exactly if it is twice too large or 128 MB too large; without a fit the grant is the start of a new region from the device; all other grants, the counters and the limit are kept |
| `BfcArena.BFCArena.Free` | onnxruntime/core/framework/bfc_arena.cc:327-350 | succeeds exactly for null, reservations and addresses in the first grain of a granted chunk, takes back exactly that and nothing else |
| `BfcArena.BFCArena.Reserve` | onnxruntime/core/framework/bfc_arena.cc:166-180 | records what the device returns, fails exactly if that address is recorded already, and counts it in both totals |
| `BfcArena.BFCArena.Extend` | onnxruntime/core/framework/bfc_arena.cc:56-133 | asks for the region size doubled until it is enough, within what the limit leaves; adds one free chunk that fits, or leaves the chunks as they are; says exactly when it fails and how the region size and the backing off change; after a refusal the region is the first granted of the ever smaller requests |
| `BfcArena.BFCArena.AskDevice` | onnxruntime/core/framework/bfc_arena.cc:77-94 | takes the first offer as it is, and backs off only once in the arena's life; fails exactly if the first request and all shrunk ones of use are refused, and otherwise takes the first one granted |
| `BfcArena.Backpedal` | onnxruntime/core/framework/bfc_arena.cc:82-91 | ends with the first offer for a shrunk request, or without one exactly if all are refused until the request has become too small |
| `BfcArena.BFCArena.AddMemory` | onnxruntime/core/framework/bfc_arena.cc:96-132 | a fresh region becomes one free chunk in its bin, and the total grows by its size |
| `BfcArena.BFCArena.FindChunkPtr` | onnxruntime/core/framework/bfc_arena.cc:243-290 | succeeds exactly if some free chunk fits, and then takes the smallest, at the lowest address among equals, over all bins |
| `BfcArena.BFCArena.FindFreeChunk` | onnxruntime/core/framework/bfc_arena.cc:245-255 | the bin-by-bin search is a global best fit |
| `BfcArena.BFCArena.FirstFit` | onnxruntime/core/framework/bfc_arena.cc:250-255 | the first chunk in a bin's order that is large enough |
| `BfcArena.BFCArena.GrantChunk` | onnxruntime/core/framework/bfc_arena.cc:256-284 | less than the rounded size and less than 128 MB is given in excess; a larger chunk is cut to the rounded size, any other is given whole |
| `BfcArena.BFCArena.SplitChunk` | onnxruntime/core/framework/bfc_arena.cc:292-325 | the front keeps address and handle, the rear is free and in a bin, and everything still agrees |
| `BfcArena.BFCArena.Merge` | onnxruntime/core/framework/bfc_arena.cc:354-389 | two free neighbours become one, the second handle is recycled, and everything still agrees |
| `BfcArena.BFCArena.FreeAndMaybeCoalesce` | onnxruntime/core/framework/bfc_arena.cc:418-464 | the chunk is free, no two neighbours are both free, and no other grant changes |
| `BfcArena.BFCArena.JoinNext` | onnxruntime/core/framework/bfc_arena.cc:434-447 | afterwards the successor is in use or absent |
| `BfcArena.BFCArena.JoinPrev` | onnxruntime/core/framework/bfc_arena.cc:449-461 | afterwards no neighbour of the remaining chunk is free |
| `BfcArena.BFCArena.AllocateChunk` | onnxruntime/core/framework/bfc_arena.cc:135-145 | a handle that stands for no memory, from the recycled list or new |
| `BfcArena.BFCArena.DeallocateChunk` | onnxruntime/core/framework/bfc_arena.cc:147-151 | puts the handle at the head of the recycled list |
| `BfcArena.BFCArena.InsertFreeChunkIntoBin` | onnxruntime/core/framework/bfc_arena.cc:391-398 | the chunk is in the bin of its size and no longer loose |
| `BfcArena.BFCArena.RemoveFreeChunkFromBin` | onnxruntime/core/framework/bfc_arena.cc:400-416 | the chunk was in that bin and is now in none |
| `BfcState.SplitCoherent` | onnxruntime/core/framework/bfc_arena.cc:292-325 | splitting keeps tiling, links, table, bins, pool and bytes in use |
| `BfcState.MergeCoherent` | onnxruntime/core/framework/bfc_arena.cc:354-389 | so does merging |
| `BfcState.ExtendCoherent` | onnxruntime/core/framework/bfc_arena.cc:107-132 | so does adding a region |
| `BfcChunks.SplitTiled` | onnxruntime/core/framework/bfc_arena.cc:292-325 | cutting a chunk in two keeps the tiling and the table |
| `BfcChunks.MergeTiled` | onnxruntime/core/framework/bfc_arena.cc:354-389 | joining two neighbours keeps the tiling and the table |
| `BfcRegions.SetLookup` | onnxruntime/core/framework/bfc_arena.h:257-277 | setting an entry changes the lookup of exactly the addresses in its grain |
| `BfcRegions.AddLookup` | onnxruntime/core/framework/bfc_arena.h:302-341 | a new region is found under its own addresses only |
| `BfcBins.Log2FloorNonZeroSlow` | onnxruntime/core/framework/bfc_arena.h:406-413 | the exponent of the largest power of two not above the argument |
| `BfcBins.BinRange` | onnxruntime/core/framework/bfc_arena.h:443-451 | a size is in a bin exactly if it lies between the bin's size and twice that |
| `BfcBins.BinMonotone` | onnxruntime/core/framework/bfc_arena.h:447-451 | larger sizes never go to lower bins |
| `BfcPolicy.FirstFitIsBest` | onnxruntime/core/framework/bfc_arena.cc:243-255 | the first fit of the first bin that has one is the best of all free chunks |
| `BfcSizes.RoundedIsEnough` | onnxruntime/core/framework/bfc_arena.cc:154-160 | rounding gives the next whole number of grains exactly for sizes up to 256 below the end of the word |
| `BfcSizes.AvailableWithinLimit` | onnxruntime/core/framework/bfc_arena.cc:57-59 | what is left respects the limit exactly if the limit has not been passed |
| `BfcSizes.AvailableIsTight` | onnxruntime/core/framework/bfc_arena.cc:57-59 | less than a grain of what the limit leaves is lost, also when the difference wraps around |
| `BfcSizes.AvailableExactly` | onnxruntime/core/framework/bfc_arena.cc:57-62 | below the limit, whole grains are available exactly if they fit under it |
| `BfcPolicy.RoomExactlyIf` | onnxruntime/core/framework/bfc_arena.cc:56-62 | below the limit: a device that grants everything leaves room for what fits under the limit, and what does not fit has room exactly in a free chunk |
| `BfcPolicy.RoomPastLimit` | onnxruntime/core/framework/bfc_arena.cc:56-62 | once reservations have passed the limit it no longer holds anything back |
| `BfcSizes.DoubledIsLeast` | onnxruntime/core/framework/bfc_arena.cc:64-70 | the region size is doubled as often as needed and no more |
| `BfcSizes.ShrinkProgress` | onnxruntime/core/framework/bfc_arena.cc:87-87 | the next whole number of grains from nine tenths up; less exactly above nine grains |
| `BfcSizes.GivesUpExactlyAboveFloor` | onnxruntime/core/framework/bfc_arena.cc:86-90 | if the device keeps refusing, the loop ends exactly if more than nine grains are needed |
| `BfcPolicy.EndsExactlyIf` | onnxruntime/core/framework/bfc_arena.cc:82-91 | the backing-off loop reaches one of its exits exactly if more than nine grains are needed or some shrunk request is granted |
| `BfcTheorems.RegionIsTiled` | onnxruntime/core/framework/bfc_arena.h:136-165 | the next links from a region's first chunk cover it exactly and pass through every live chunk in it |
| `BfcTheorems.EveryHandleOnce` | onnxruntime/core/framework/bfc_arena.cc:135-151 | every chunk handle is on the recycled list or in the chain of exactly one region |
| `BfcTheorems.AllFreedIsWhole` | onnxruntime/core/framework/bfc_arena.cc:418-464 | when nothing is granted every region is one free chunk of its full size, in its bin |
| `BfcTheorems.HoldingsApart` | onnxruntime/core/framework/bfc_arena.cc:162-180 | any two different holdings, granted chunks or reservations, are disjoint |
| `BfcTheorems.AllocThenFree` | onnxruntime/core/framework/bfc_arena.cc:327-350 | freeing what was just allocated restores every grant and the bytes in use |
| `TernaryTree.PutKeepsOrder` | onnxruntime/contrib_ops/cpu/tokenizer.cc:136-176 | inserting keeps the search order |
| `TernaryTree.PutFailsOnDuplicates` | onnxruntime/contrib_ops/cpu/tokenizer.cc:136-176 | inserting fails exactly if the pattern is stored somewhere in the tree |
| `TernaryTree.PutAddsOne` | onnxruntime/contrib_ops/cpu/tokenizer.cc:136-176 | a successful insertion adds that pattern and no other |
| `TernaryTree.GetIsBest` | onnxruntime/contrib_ops/cpu/tokenizer.cc:103-134 | the search returns the lowest rank among all stored prefixes, the shorter one on ties, and nothing exactly if there is none |
| `TernaryTree.TernarySearchTree.Get` | onnxruntime/contrib_ops/cpu/tokenizer.cc:75-82 | the same for the class, with nothing for the empty text |
| `TernaryTree.TernarySearchTree.Search` | onnxruntime/contrib_ops/cpu/tokenizer.cc:112-134 | the recursive descent with its running best computes the specified search |
| `TernaryTree.TernarySearchTree.TryPut` | onnxruntime/contrib_ops/cpu/tokenizer.cc:88-100 | refuses exactly empty and stored patterns, leaving the tree as it was; otherwise adds one |
| `SeparatorTokenizer.BuildTree` | onnxruntime/contrib_ops/cpu/tokenizer.cc:223-237 | succeeds exactly for nonempty, distinct separators; the tree then holds exactly those, ranked by position |
| `SeparatorTokenizer.GetFindsFirst` | onnxruntime/contrib_ops/cpu/tokenizer.cc:357-357 | the tree finds the first separator of the list that occurs at the offset |
| `SeparatorTokenizer.SetInsert` | onnxruntime/contrib_ops/cpu/tokenizer.cc:322-332 | inserts in order exactly if nothing overlaps, else says where the first conflict is |
| `SeparatorTokenizer.Resolve` | onnxruntime/contrib_ops/cpu/tokenizer.cc:359-365 | only the last match can conflict, and the conflict loop runs at most once |
| `SeparatorTokenizer.Scan` | onnxruntime/contrib_ops/cpu/tokenizer.cc:352-370 | sorted matches without overlap, each the separator found at its offset |
| `SeparatorTokenizer.KeptIsNotBeaten` | onnxruntime/contrib_ops/cpu/tokenizer.cc:359-365 | nothing that starts inside a kept match is preferred to it |
| `SeparatorTokenizer.UnchallengedIsKept` | onnxruntime/contrib_ops/cpu/tokenizer.cc:359-365 | a match preferred to everything it overlaps is kept |
| `SeparatorTokenizer.MaximalExactlyIf` | onnxruntime/contrib_ops/cpu/tokenizer.cc:359-365 | every match is kept or overlaps a kept one exactly if no step of the scan throws out a match that kept away one ending before the new match and starting after the match before |
| `SeparatorTokenizer.MaximalForList` | onnxruntime/contrib_ops/cpu/tokenizer.cc:359-365 | that is so for every text if no separator can start inside one listed after it |
| `SeparatorTokenizer.LostMatchesStayLost` | onnxruntime/contrib_ops/cpu/tokenizer.cc:359-365 | an input on which the kept matches are not maximal |
| `SeparatorTokenizer.PiecesRebuild` | onnxruntime/contrib_ops/cpu/tokenizer.cc:372-390 | gaps and matches in order concatenate to the input |
| `SeparatorTokenizer.TokensAreLong` | onnxruntime/contrib_ops/cpu/tokenizer.cc:378-390 | every token that ends at a match has the minimum length; only the rest may be shorter |
| `SeparatorTokenizer.TokensAreGaps` | onnxruntime/contrib_ops/cpu/tokenizer.cc:378-390 | every token is one of the gaps |
| `SeparatorTokenizer.TokensAreExact` | onnxruntime/contrib_ops/cpu/tokenizer.cc:378-390 | an increasing list of positions that hits every gap to be kept and no other piece, and whose pieces are the tokens |
| `SeparatorTokenizer.CutAt` | onnxruntime/contrib_ops/cpu/tokenizer.cc:372-390 | the tokens are, in order and with multiplicity, exactly the gaps that are not empty and either the rest or of the minimum length |
| `SeparatorTokenizer.SeparatorTokenize` | onnxruntime/contrib_ops/cpu/tokenizer.cc:352-390 | scan and cut together for one string: gaps and matches rebuild it, and the tokens are exactly the gaps kept |
| `Utf8.Validate` | onnxruntime/core/common/utf8_util.h:34-126 | accepts exactly the grammar and reports the number of characters |
| `Utf8.CheckChar` | onnxruntime/core/common/utf8_util.h:38-114 | one pass of the loop accepts exactly one character of the grammar |
| `Utf8.LeadRanges` | onnxruntime/core/common/utf8_util.h:13-32 | the bit tests are exactly these ranges of the first byte |
| `Utf8.ValidIsGrammar` | onnxruntime/core/common/utf8_util.h:34-126 | checking one character after the other is the same as being some sequence of characters |
| `Utf8.SpellsIsValid` | onnxruntime/core/common/utf8_util.h:34-126 | every spelling of a string has the reported number of characters |
| `Utf8.OnlyOverlongDiffers` | onnxruntime/core/common/utf8_util.h:18-21 | what is accepted beyond RFC 3629 are exactly the strings with a byte C0 or C1 |
| `Utf8.SplitChars` | onnxruntime/contrib_ops/cpu/tokenizer.cc:290-302 | splitting by first bytes never overruns, gives the reported count and loses nothing |
| `NonMaxSuppression.SuppressMeans` | onnxruntime/contrib_ops/cpu/non_max_suppression.cc:41-72 | suppression means a nonempty overlap above its share of the union; it is symmetric and needs a threshold below one |
| `NonMaxSuppression.OverlapIsLongest` | onnxruntime/contrib_ops/cpu/non_max_suppression.cc:48-58 | the overlap in each direction is the length of the longest interval inside both sides |
| `NonMaxSuppression.SuppressedBoxesMeet` | onnxruntime/contrib_ops/cpu/non_max_suppression.cc:41-72 | boxes without a common interior point never suppress each other |
| `NonMaxSuppression.CornersDoNotMatter` | onnxruntime/contrib_ops/cpu/non_max_suppression.cc:29-47 | any two opposite corners describe the same box |
| `NonMaxSuppression.SuppressesItself` | onnxruntime/contrib_ops/cpu/non_max_suppression.cc:41-72 | a box with an area suppresses its duplicates exactly for thresholds below one |
| `NonMaxSuppression.Select` | onnxruntime/contrib_ops/cpu/non_max_suppression.cc:83-155 | falling scores, no two selected boxes above the threshold, and every other candidate beaten by a selected one of at least its score or too late for the limit; padded with zeros exactly if asked for; an empty tensor and no count if there are no boxes or nothing may be selected; refused if boxes and scores differ in number |
| `NonMaxSuppression.SelectedAre` | onnxruntime/contrib_ops/cpu/non_max_suppression.cc:107-139 | what a selection says of the scores and boxes themselves: above the minimum, different, falling, no pair suppressed, no more than allowed |
| `NonMaxSuppression.LeftOutBecause` | onnxruntime/contrib_ops/cpu/non_max_suppression.cc:107-139 | a box above the minimum is left out only if a selected one of at least its score suppresses it, or the limit is used up by boxes of at least its score |
| `NonMaxSuppression.SelectionIsUnique` | onnxruntime/contrib_ops/cpu/non_max_suppression.cc:121-139 | with different scores there is only one such selection |

## Left out

- Graph rewrites, partitioning, shape inference, type registries, model loading, language bindings and numeric kernels.
- Fences, profiling, logging and device copies.
- The terminate flag, and fetches that the caller has allocated beforehand.
- The contents of non-tensor values: planner and frame treat them apart, but the kernels see all contents as sequences of numbers.
- More than one memory location: the planner compares locations, the pattern planner and its cache are modelled for one.
- Mutexes, condition variables and the thread pool's own queue: each critical section is one step.
- The tokenizer's conversion from and to UTF-8 wide strings, and the padding and marking of its output rows.
- `RequestedSize`, `AllocatedSize`, the statistics dump and the destructor of the arena.
- Requests and region sizes whose doubling passes the end of the 64-bit word.
- The binary search in the region vector and the red-black tree behind a bin: they are a first index and a set with an order.
- Rounding of floating point in box areas, scores and the factor 0.9.
- TernaryTree.TernarySearchTree.TryPut: nodes are values, so relinking in place is not modelled; each node has a single owner, so no aliasing is lost.
- SequentialExecutor.ExecutionFrame.ReleaseMLValue: the traced free of the same lines is an event of the schedule in `PatternCache`, not part of the frame.
- SequentialExecutor.Execute: the comparison with the run without sharing is for kernels that honour their declarations, since nothing can be said of one that does not.
- PlanTheorems.PlanAndExecute: the outcome is compared for graphs whose walk is clean; `GapsGoWrong`, `MixedPairsGoWrong` and `AliasedSequenceGoesWrong` show what happens otherwise.
- ParallelSharing.ReadsRightExactlyIf: contents are identified by the node that wrote them, and a kernel reads and writes in one step.
- BfcArena.BFCArena.Alloc: requires a size up to 256 below the end of the word, because rounding wraps beyond that.
- BfcArena.BFCArena.Extend: requires exactly what makes its two loops end: a region size above zero if they are reached, and a device that grants the first or some shrunk request unless more than nine grains are needed or backing off is over.
