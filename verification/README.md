# Wustite: verified models of the runtime's hard parts

Wustite runs a Python subset on a register machine, compiles hot regions to native
code through two intermediate representations, and keeps adaptive values in a
copying heap with a stop-the-world protocol. This project models the parts whose
correctness is not visible in one function and proves it, for all inputs, runs or
interleavings. `dafny verify dfyconfig.toml` checks everything.

**Managed heap and its protocol.** `Handles` is the generational handle table;
`Tracing` is reachability and the marking loop; `HeapModel` is the heap as a value
with its single-object sections; `MinorCopy`, `MajorSweep` and `GraphBatch` follow
the copying loop, the sweep and the graph allocation step by step; `GcHeaps` holds
the classes that run them in place; `HeapRuns` speaks about whole runs. Every
critical section of the state lock is one atomic step. `MachineWords` has word widths
and binary64 patterns; `ValueWords` is NaN-boxing
(binary64 as in section 3.4 of IEEE 754-2019). `Safepoint` is the protocol under one
mutex and condition variable, with any number of mutators and every interleaving.

**Bytecode.** `Bytecode`, `Initialization` and `Interpreter` are the instruction set,
the definite-assignment worklist (exact: sound and complete for paths) and the
interpreter, with the theorem that verified code never reads an uninitialized
register and never runs off its end. `Values`, `FloatNumbers` and `Equality` are machine
values, what binary64 patterns are as numbers, and equality on cyclic heaps. Quick code
runs as the plain interpreter does.

**Region IR.** `WxIr`, `WxSemantics`, `WxVerifier`, `WxVerify` and `WxSoundness` are
the SSA region IR, one semantics over an arbitrary domain of values, what the
verifier accepts (a run over types), the verifier itself, and type soundness.
`WxOptimizer` is the optimizer as a function, `WxOptimize` as the loops that run;
`WxLaws`, `WxNumbering`, `WxNumberingRuns`, `WxDead` and `WxPreservation` prove that
it keeps the meaning of every verified function on every machine, `WxReverify` that
the result verifies again, `WxRepeats` that nothing is left to number, to fold or to
remove, `WxFolding` where folding does not keep the meaning. `WxTyping` says what the
type rules mean for bit patterns, `WxMeaning` what small regions compute.
`WxMachine` is execution on bit patterns: constants, scalar integer comparisons and
the logic of i1 are computed, every other operation is an arbitrary function of its
operands (of the unordered pair where the operation commutes).

**Native optimizer.** `NativeIr` is the snapshot IR with its reference interpreter,
`NativeOptimizer` four passes that keep what it computes, in any order, and
`NativeEffects` what each leaves behind.

**Lists, objects and caches.** `Slices` are slice indices under saturating
arithmetic; `Sequences` strategy-specialised list storage against a plain sequence;
`ObjectHeaps`, `HeapObjects` and `AttributeCache` the object heap, its classes and
shape-keyed attribute sites; `LoopCommit` and `DynamicLoop` the all-or-nothing
write-back of a native loop; `CodeCache` the leased LRU cache of native code;
`TypedLists` lists of value words and the leases that native code reads.

Classes update their fields as the source does. Where a method is tied to a
specification function, what the source promises is proved about that function, by laws
that do not name it where the two share a definition.
Clocks, metrics, poisoned locks and native code are left out or are parameters:
native code and runtime calls are arbitrary functions.

## Where the code differs from what one might expect

- Constant folding compares integer literals at 64 bits whatever their declared
  width (`src/wxir/optimizer/keys.rs:149-162`). The optimizer keeps the meaning of every
  function whose folded comparisons come out the same at both widths
  (`WxPreservation.OptimizePreservesMeaning`); for a region that compares two literals
  that is exact (`WxFolding.FoldsRightExactly`).
- A waiting safepoint requester can be lost for good (`src/adaptive_v2/safepoint.rs:97-153`);
  `Safepoint.ServedIffNotDoomed` says exactly when, `Safepoint.SecondRequestTooSoon`
  is a run of two mutators.
- Remaining capacity promises room that slot numbers cannot serve when the capacity
  exceeds 2^32 (`src/adaptive_v2/handles.rs:172-174`): `Handles.RemainingMisleadsExactly`.
  Graph allocation is all-or-nothing exactly when the slot numbers last
  (`GcHeaps.GcHeap.AllocateGraph`).
- A finished major cycle ends marking a second time when it is dropped
  (`src/adaptive_v2/heap/major.rs:79-88`). When cycles overlap, one empties the barrier
  of the other: `HeapRuns.DropForgetsBarrier` says when a drop is harmless,
  `HeapRuns.OverlappedCycleExact` what a cycle then releases.
- `None` is not equal to itself (`src/wvm/equality.rs:49-50`): `Equality.ReflexiveIff`.
- When shape ids are used up, two shapes share one and attribute sites answer
  wrongly (`src/object/heap.rs:631-639`): `AttributeCache.ExhaustedSiteIsWrong`. A step
  keeps all sites right exactly when the shape that it asks for is known or gets an
  unused id: `AttributeCache.StepKeepsRightExactly`.
- Inserting under a leased key forgets the lease (`src/adaptive_v2/native/cache.rs:83-102`):
  `CodeCache.StepCountsExactly` and `CodeCache.ReinsertedUnderLease`. Sizes, limits and
  values do not depend on it: `CodeCache.RunInv`.
- An assignment of the same strategy keeps the layout version
  (`src/object/sequence.rs:214-222`): `Sequences.SameLayoutOtherContents` says when that
  leaves other contents under the same version.
- A list lease becomes current again after 2^63 mutations (`src/adaptive_v2/lists.rs:302-313`):
  `TypedLists.LeaseIsCurrentExactly`.

## Model

| member | source | states |
|---|---|---|
| `Handles.AllocateCorrect` | src/adaptive_v2/handles.rs:81-103 | Allocation succeeds exactly when a free slot or a fresh one is left; the new handle was neither live nor ever spent, resolves to the value, and every other handle is as before |
| `Handles.ReleaseCorrect` | src/adaptive_v2/handles.rs:149-166 | Release succeeds exactly on live handles; the handle is spent for good, no other handle changes, and its slot becomes reusable or, after the last generation, retired |
| `Handles.ReleasedRetires` | src/adaptive_v2/handles.rs:149-166 | A slot of the last generation is retired: one more retired, no capacity gained |
| `Handles.ReleasedFrees` | src/adaptive_v2/handles.rs:149-166 | A slot of any other generation is free again: capacity grows by one |
| `Handles.RelocateCorrect` | src/adaptive_v2/handles.rs:141-147 | Writing through a live handle changes what that handle resolves to and nothing else; exactly the dead handles are refused, and nothing changes |
| `Handles.ResolveIsLive` | src/adaptive_v2/handles.rs:133-139 | A handle resolves exactly when runtime, slot and generation are those of a live entry; the error says whether it belongs to another runtime |
| `Handles.Conservation` | src/adaptive_v2/handles.rs:168-174 | live + retired + remaining capacity is the capacity, in every valid table |
| `Handles.RoomIsRemaining` | src/adaptive_v2/handles.rs:172-174 | An allocation can be served exactly while there is room, free slots plus unused slot numbers; that is the remaining capacity exactly up to 2^32 slots |
| `Handles.RunKeeps` | src/adaptive_v2/handles.rs:81-166 | Any run of allocations and releases keeps the table valid, keeps spent handles spent and never makes an issued handle fresh |
| `Handles.IssuedOnce` | src/adaptive_v2/handles.rs:81-103 | Over any run no handle is issued twice |
| `Handles.ReleasedNeverResolves` | src/adaptive_v2/handles.rs:149-166 | A released handle resolves in no later state of any run |
| `Handles.StableHandleTable.Allocate` | src/adaptive_v2/handles.rs:81-103 | The in-place method computes the specified table and result |
| `Handles.StableHandleTable.Release` | src/adaptive_v2/handles.rs:149-166 | The in-place method computes the specified table and result |
| `Handles.StableHandleTable.Relocate` | src/adaptive_v2/handles.rs:141-147 | The in-place method computes the specified table and result |
| `Tracing.MarkSnapshot` | src/adaptive_v2/heap/major.rs:90-105 | The worklist marks exactly the handles that the seed reaches, for every graph and seed, and terminates |
| `Tracing.ClosedHoldsReachable` | src/adaptive_v2/heap/major.rs:90-105 | A marked set that holds the seeds and the children of its members holds everything reachable |
| `Tracing.ReachableTransfer` | src/adaptive_v2/heap/major.rs:107-119 | What one graph reaches another reaches too, when the edges on the way are kept |
| `HeapModel.PlacedValid` | src/adaptive_v2/heap.rs:51-79 | Placing an object keeps the heap invariant: live handles map one-to-one onto occupied cells, counted by `live`; pins are live, remembered handles live and old |
| `HeapModel.PlacedHandle` | src/adaptive_v2/heap.rs:51-79 | Allocation is refused at the limit or when the table is full; otherwise it issues a handle that was never issued |
| `HeapModel.PlacedObjects` | src/adaptive_v2/heap.rs:51-79 | The new handle means the new object, is young, and every other object is unchanged |
| `HeapModel.StoredValid` | src/adaptive_v2/heap.rs:127-145 | Storing a reference keeps the heap invariant |
| `HeapModel.StoredCorrect` | src/adaptive_v2/heap.rs:127-145 | The store succeeds exactly when both handles are live; it appends one reference to the owner, remembers old-to-young owners, and adds the target to the barrier exactly while marking |
| `HeapModel.PinnedCorrect` | src/adaptive_v2/heap.rs:90-96 | Pinning counts up on live handles only, refuses overflow and changes no object |
| `HeapModel.UnpinnedCorrect` | src/adaptive_v2/heap.rs:98-109 | Unpinning counts down, forgets a pin at zero, and changes no object |
| `HeapModel.UnpinUndoesPin` | src/adaptive_v2/heap.rs:90-109 | Unpinning after a successful pin restores the heap |
| `MinorCopy.EndMinor` | src/adaptive_v2/heap/collection.rs:28-94 | When the copy loop has visited all handles, the heap is exactly a minor collection of the heap before: reachable handles mean the same objects, unreachable young ones are released, old ones are untouched; what ages and promotions come to is `HeapRuns.AgeCountsMinors` |
| `MinorCopy.EndInjective` | src/adaptive_v2/heap/collection.rs:54-86 | Locations that may clash while the loop runs are one-to-one again at its end |
| `MinorCopy.PromoteStep` | src/adaptive_v2/heap/collection.rs:54-86 | Promoting one survivor keeps the description of the half-copied heap |
| `MinorCopy.MoveStep` | src/adaptive_v2/heap/collection.rs:54-86 | Moving one survivor to the new nursery keeps the description of the half-copied heap |
| `MinorCopy.DropStep` | src/adaptive_v2/heap/collection.rs:54-86 | Releasing one unreachable young handle keeps the description of the half-copied heap |
| `GcHeaps.GcHeap.TraceYoung` | src/adaptive_v2/heap/collection.rs:28-52 | The trace from roots, pins and the remembered set, through old objects, finds exactly what they reach |
| `GcHeaps.GcHeap.CopyNursery` | src/adaptive_v2/heap/collection.rs:28-94 | A minor collection keeps everything reachable from roots, pins and the remembered set identical, releases exactly the other young handles and no old one, restores the heap invariant, and is a step of the runs for which `HeapRuns.AgeCountsMinors` counts ages |
| `MajorSweep.SweepEnd` | src/adaptive_v2/heap/major.rs:51-69 | When the sweep has visited all handles, exactly the old handles without a mark are released and the live count matches |
| `GcHeaps.MajorCycle.Start` | src/adaptive_v2/heap/major.rs:16-37 | The cycle starts with a copy of all objects, its roots and the current pins as seed, marking on and an empty barrier |
| `GcHeaps.MajorCycle.Finish` | src/adaptive_v2/heap/major.rs:39-77 | The cycle marks exactly what the snapshot reached and ends as the specified finish of the current heap |
| `GcHeaps.MajorCycle.Drop` | src/adaptive_v2/heap/major.rs:79-88 | Dropping a cycle ends marking and clears the barrier and changes nothing else |
| `GcHeaps.GcHeap.TraceCurrent` | src/adaptive_v2/heap/major.rs:107-119 | The trace at the finish marks exactly what the current heap reaches from roots, pins and barrier |
| `GcHeaps.GcHeap.SweepUnmarked` | src/adaptive_v2/heap/major.rs:51-69 | Sweeping releases exactly the old handles that neither trace marked |
| `GraphBatch.ReservedCorrect` | src/adaptive_v2/heap/transaction.rs:59-68 | Reserving n handles issues n distinct fresh ones, for the next n nursery cells |
| `GraphBatch.ReservedRoom` | src/adaptive_v2/heap/transaction.rs:59-68 | While there is room the next reservation cannot fail |
| `GraphBatch.BatchCorrect` | src/adaptive_v2/heap/transaction.rs:59-88 | Patched cells carry the requested edges, young and of age 0 (`GraphBatch.GraphEdges` says which edges those are) |
| `GcHeaps.GcHeap.AllocateGraph` | src/adaptive_v2/heap/transaction.rs:25-90 | All-or-nothing exactly when the batch is refused or the slot numbers last for it: an error leaves the heap as it was, a success adds exactly the requested graph; otherwise it ends half way with a handle for every number left |
| `GcHeaps.GcHeap.CheckBatch` | src/adaptive_v2/heap/transaction.rs:33-57 | The checks refuse exactly the batches that exceed limit or capacity or name a missing object or dead handle |
| `GcHeaps.GcHeap.Place` | src/adaptive_v2/heap.rs:51-79 | The in-place method computes the specified heap and result |
| `GcHeaps.GcHeap.AllocateWithRoots` | src/adaptive_v2/heap.rs:51-79 | Allocation after an optional minor collection from the given roots |
| `GcHeaps.GcHeap.Resolve` | src/adaptive_v2/heap.rs:81-84 | The object of a live handle, else an error |
| `GcHeaps.GcHeap.PinHost` | src/adaptive_v2/heap.rs:90-96 | The in-place method computes the specified heap and result |
| `GcHeaps.GcHeap.UnpinHost` | src/adaptive_v2/heap.rs:98-109 | The in-place method computes the specified heap and result |
| `GcHeaps.GcHeap.StoreReference` | src/adaptive_v2/heap.rs:127-145 | The in-place method computes the specified heap and result |
| `HeapRuns.StepValid` | src/adaptive_v2/heap.rs:51-145 | Every section (allocate, graph, store, pin, unpin, minor, major stops) keeps the heap invariant |
| `HeapRuns.RunValid` | src/adaptive_v2/heap.rs:51-145 | The heap invariant holds in every state of every interleaving of sections, and spent handles stay spent |
| `HeapRuns.StepKeepsProtected` | src/adaptive_v2/heap/collection.rs:28-94 | No section releases or shrinks an object that the pins reach |
| `HeapRuns.StepKeepsBelowPin` | src/adaptive_v2/heap.rs:90-109 | Whatever section runs, all that a pinned handle reaches stays live and reached |
| `HeapRuns.PinProtects` | src/adaptive_v2/heap.rs:90-109 | Over any run in which a handle stays pinned, everything it reached at the start stays live and reached, keeps its scalar and loses no reference |
| `HeapRuns.MinorInvisible` | src/adaptive_v2/heap/collection.rs:28-94 | A minor collection cannot be observed from roots and pins: the same handles are reached and mean the same |
| `HeapRuns.StepBarrier` | src/adaptive_v2/heap.rs:127-145 | The barrier grows exactly by the target of a successful store while it marks; every start, finish or drop of a cycle empties it |
| `HeapRuns.BarrierIsStored` | src/adaptive_v2/heap.rs:127-145 | At any point of a cycle the barrier is exactly the set of targets stored since its start |
| `HeapRuns.MajorCycleExact` | src/adaptive_v2/heap/major.rs:16-77 | For any mutator steps between start and finish: an old handle survives exactly when the heap at the start, or the heap at the finish with stored targets as roots, reaches it; survivors are unchanged and unmoved, the nursery untouched |
| `HeapRuns.MajorKeepsReachable` | src/adaptive_v2/heap/major.rs:39-77 | Everything that roots, pins or stored targets reach at the finish survives unchanged, with all it reaches |
| `ValueWords.ImmediateRoundTrip` | src/adaptive_v2/value_word.rs:24-56 | An immediate integer or non-NaN float decodes to itself in every heap and is never taken for a box |
| `ValueWords.ImmediatesDiffer` | src/adaptive_v2/value_word.rs:24-40 | Different immediates have different words |
| `ValueWords.HandleRoundTrip` | src/adaptive_v2/value_word.rs:58-65 | A handle survives packing, and its word is a NaN pattern |
| `ValueWords.KindsDisjoint` | src/adaptive_v2/value_word.rs:24-65 | No word of a handle is the word of an immediate |
| `ValueWords.RepresentsDecodes` | src/adaptive_v2/value_word.rs:42-56 | A word that represents a scalar decodes to it |
| `ValueWords.BoxDecodes` | src/adaptive_v2/value_word.rs:42-56 | A boxed word decodes to the scalar of its live box, or reports that the box holds none |
| `ValueWords.EncodedForever` | src/adaptive_v2/value_word.rs:24-56 | A boxed word keeps decoding to its scalar over any run in which its box stays pinned |
| `ValueWords.EncodeScalar` | src/adaptive_v2/value_word.rs:24-40 | Every integer and float is encoded by a word that represents it; immediates leave the heap alone, other scalars are boxed and pinned |
| `Safepoint.StepInv` | src/adaptive_v2/safepoint.rs:56-200 | Inductive invariant of all sections: a raised flag means a blocked owner, no request means no raised flag, the recorded requester waits or operates, at most one operates |
| `Safepoint.RunInv` | src/adaptive_v2/safepoint.rs:56-200 | The invariant holds in every reachable state of every interleaving |
| `Safepoint.BeginFindsParked` | src/adaptive_v2/safepoint.rs:82-95 | When an operation starts, every other registered mutator is blocked with its flag raised |
| `Safepoint.AtMostOneOperation` | src/adaptive_v2/safepoint.rs:69-107 | In every interleaving at most one safepoint operation runs |
| `Safepoint.WorldStopped` | src/adaptive_v2/safepoint.rs:69-107 | From the start of an operation until it ends, every other mutator registered at its start stays blocked, whatever sections interleave |
| `Safepoint.StepHolds` | src/adaptive_v2/safepoint.rs:135-188 | No section of another thread frees a mutator held by a running operation |
| `Safepoint.NoRequestOnlyAlone` | src/adaptive_v2/safepoint.rs:82-101 | An operation whose request was cleared meanwhile can only run when nobody else is registered |
| `Safepoint.DoomedNeverServed` | src/adaptive_v2/safepoint.rs:82-92 | A waiting requester is lost on every schedule once another requester waits, a forgotten mutator sleeps, or its own request is gone while one idles |
| `Safepoint.HopefulServed` | src/adaptive_v2/safepoint.rs:69-107 | Otherwise some schedule serves it |
| `Safepoint.ServedIffNotDoomed` | src/adaptive_v2/safepoint.rs:69-188 | Exactly when a waiting requester can still be served |
| `Safepoint.SecondRequestTooSoon` | src/adaptive_v2/safepoint.rs:97-153 | A run of two mutators in which the second request deadlocks |
| `Safepoint.Coordinator.Register` | src/adaptive_v2/safepoint.rs:56-67 | The section under the lock, on the fields of the coordinator |
| `Safepoint.Coordinator.BeginRequest` | src/adaptive_v2/safepoint.rs:74-81 | The section under the lock, on the fields of the coordinator |
| `Safepoint.Coordinator.MustWait` | src/adaptive_v2/safepoint.rs:82-86 | Waits exactly while another mutator is not parked |
| `Safepoint.Coordinator.EndRequest` | src/adaptive_v2/safepoint.rs:96-101 | The request and all flags are cleared |
| `Safepoint.Coordinator.ParkIfRequested` | src/adaptive_v2/safepoint.rs:141-146 | Parks exactly when someone else requests |
| `Safepoint.Coordinator.DropMutator` | src/adaptive_v2/safepoint.rs:191-200 | The mutator is forgotten and nothing else changes |
| `Initialization.VerifyDefiniteAssignment` | src/verifier/initialization.rs:6-57 | The worklist terminates on all code with in-range targets and accepts exactly when code is non-empty and no path from the entry falls off the end or reads a register that the path has not assigned; what an instruction reads is what the interpreter looks up (`Interpreter.LookedUpAreRead`) |
| `Initialization.FixpointBelowPaths` | src/verifier/initialization.rs:18-50 | A settled table is below what every path assigns |
| `Initialization.FixpointIsSafe` | src/verifier/initialization.rs:18-57 | A settled and sound table whose reads are covered makes every path safe |
| `Initialization.MissingIsUnsafe` | src/verifier/initialization.rs:51-57 | A register missing from a sound table is unassigned on some real path, so a refusal is never spurious |
| `Initialization.FallingOffIsUnsafe` | src/verifier/initialization.rs:30-48 | Reaching the last instruction without control flow means a path falls off the end |
| `Initialization.Propagate` | src/verifier/initialization.rs:59-78 | Propagation intersects the target and requeues it exactly when the set shrank or was first reached |
| `Initialization.PropagatedKeeps` | src/verifier/initialization.rs:59-78 | One propagation keeps soundness, settledness and the bound, and lowers the measure when it changes anything |
| `Initialization.PropagateEdges` | src/verifier/initialization.rs:25-50 | All edges of one instruction propagated, in the order of the source |
| `Initialization.VerifyReads` | src/verifier/initialization.rs:117-217 | Every reached instruction reads only what its table entry holds; the table of reads is exactly what the interpreter looks up (`Interpreter.LookedUpAreRead`) |
| `Interpreter.StepFollows` | src/wvm/interpreter.rs:118-386 | One instruction in a frame that holds the analysed registers reads nothing uninitialized, moves along a control-flow edge and assigns what the analysis says |
| `Interpreter.StepExplained` | src/wvm/interpreter.rs:24-115 | Every frame of a verified function stays explained by some analysed path |
| `Interpreter.RunIsSafe` | src/wvm/interpreter.rs:24-115 | From any explained frame no number of turns breaks |
| `Interpreter.VerifiedRunsSafely` | src/wvm/interpreter.rs:16-115 | A verified function never reads an uninitialized register, never names one outside the frame and never ends without Return, for all arguments and every runtime behaviour; the registers are those that the interpreter itself looks up, a second table |
| `Interpreter.Execute` | src/wvm/interpreter.rs:24-115 | The dispatch loop on the frame runs the specified turns |
| `Interpreter.ExecuteVerified` | src/wvm/interpreter.rs:16-115 | The loop on verified code, from the entry frame and with any quick code, never ends broken and does what the plain interpreter does |
| `Equality.EqualIsExact` | src/wvm/equality.rs:10-112 | On every closed heap, cyclic ones included: false exactly when some finite index path through distinct references ends in a clash, which is said without the comparison: two different numbers (exact, integers against floats too), two different texts, functions or kinds, or lists of different length |
| `Equality.FalseHasPath` | src/wvm/equality.rs:54-112 | A false answer comes with such a path, although pairs under comparison are assumed equal |
| `Equality.PathIsFound` | src/wvm/equality.rs:80-112 | A path that avoids the pairs under comparison is found |
| `Equality.PathFromMetPair` | src/wvm/equality.rs:80-95 | A path through a pair under comparison has a shorter one that avoids it |
| `Equality.ClosedHasNoError` | src/wvm/equality.rs:14-78 | On a closed heap comparison never fails |
| `Equality.EqualIsSymmetric` | src/wvm/equality.rs:14-112 | Equality is symmetric on closed heaps |
| `Equality.ReflexiveIff` | src/wvm/equality.rs:14-52 | A value equals itself exactly when it is neither None nor a NaN |
| `Equality.ValuesEqual` | src/wvm/equality.rs:10-12 | The in-place algorithm answers as specified, with termination |
| `Equality.ValuesEqualWith` | src/wvm/equality.rs:14-52 | The recursion answers as specified and leaves the visiting set as it found it |
| `Equality.ObjectEqual` | src/wvm/equality.rs:54-95 | Objects are compared under the visited pair, which is withdrawn afterwards |
| `Equality.SequenceEqual` | src/wvm/equality.rs:97-112 | Items are compared in order up to the first difference |
| `WxVerify.Verify` | src/wxir/verifier.rs:16-82 | The verifier accepts exactly the functions that are well formed: ids, entry state, single definitions, valid types, every block running over types, every exit used once; its own match on operand types, literals and casts is proved to be the type rule, and `WxTyping` proves what that rule accepts in terms of bit patterns |
| `WxVerify.VerifyHeader` | src/wxir/verifier.rs:17-44 | Block ids, entry state, return types and single definitions, exactly |
| `WxVerify.VerifyEntryState` | src/wxir/verifier.rs:84-126 | The entry state names each entry parameter once by its type, exactly |
| `WxVerify.DefineAll` | src/wxir/verifier.rs:32-44 | Accepts exactly when every id is defined once, by a valid type |
| `WxVerify.VerifyMetadata` | src/wxir/verifier.rs:46-62 | Exit metadata with distinct ids, distinct registers and valid types, exactly |
| `WxVerify.VerifyBlocks` | src/wxir/verifier.rs:64-80 | Accepts exactly when all blocks fit and no exit is used twice; returns the uses |
| `WxVerify.VerifyBlock` | src/wxir/verifier.rs:128-176 | Accepts exactly when the block runs over types and its exits are new |
| `WxVerify.VerifyInstruction` | src/wxir/verifier.rs:178-383 | Accepts exactly when the instruction runs over the available types and its exit is new; the types of pure instructions are checked by `WxVerify.VerifyPure` |
| `WxVerify.VerifyTerminator` | src/wxir/verifier.rs:147-173 | Accepts exactly when the terminator runs over the available types and its exit is new |
| `WxVerify.VerifyExitUse` | src/wxir/verifier.rs:452-490 | Accepts exactly when the metadata exists, suits the use, is unused, and all its registers are available with their types |
| `WxVerify.VerifyValues` | src/wxir/verifier.rs:428-450 | Accepts exactly values that are available with the expected types |
| `WxVerify.VerifyTarget` | src/wxir/verifier.rs:402-426 | Accepts exactly edges to existing blocks with arguments of the parameter types |
| `WxSoundness.VerifiedNeverStuck` | src/wxir/verifier.rs:16-176 | Type soundness over any domain of typed values: an accepted function never gets stuck, edges supply well-typed arguments, returns have the declared types, and a side exit delivers every register of its metadata with its type |
| `WxSoundness.BlockSound` | src/wxir/verifier.rs:128-176 | A block accepted over types runs over values as typed |
| `WxSoundness.InstsSound` | src/wxir/verifier.rs:140-145 | A prefix of instructions accepted over types defines each operand with its checked type |
| `WxSoundness.DeliverSound` | src/wxir/verifier.rs:452-490 | Any exit taken delivers registers of the declared types |
| `WxSoundness.TerminatorSound` | src/wxir/verifier.rs:147-173 | Each way out of a block is well typed |
| `WxSoundness.EntryStateCovers` | src/wxir/verifier.rs:84-126 | Each entry parameter is filled from exactly one register |
| `WxMachine.MachineIsSound` | src/wxir/ir.rs:68-172 | Execution on bit patterns, with any machine for the opaque operations, is a typed domain |
| `WxMachine.VerifiedMachineRun` | src/wxir/verifier.rs:16-176 | Type soundness on every machine from a well-typed entry |
| `WxMachine.FoldsRightExactlyWhenItFits` | src/wxir/optimizer/keys.rs:129-162 | The 64-bit comparison agrees with the comparison at the declared width, for every operator and every constant of the type, exactly for the constants that the type can hold |
| `WxMachine.Compare64Agrees` | src/wxir/optimizer/keys.rs:149-162 | In range, the six comparisons at 64 bits are those at the width |
| `WxLaws.MachineIsLawful` | src/wxir/optimizer/keys.rs:19-65 | On every machine equal keys mean equal results and folded constants mean what they replace |
| `WxLaws.StaticIsLawful` | src/wxir/optimizer/keys.rs:19-65 | The same over types |
| `WxLaws.FoldedBits` | src/wxir/optimizer/keys.rs:88-147 | A fold has the bits that the operation would give, for literals whose 64-bit comparison is the one at their width |
| `WxLaws.FoldHasType` | src/wxir/optimizer/keys.rs:88-112 | A fold yields a literal of the type of the operation it replaces |
| `WxNumbering.StepTidy` | src/wxir/optimizer.rs:20-51 | Replaced ids are gone and are replaced only by ids that were kept: never forward, never in a cycle |
| `WxNumbering.KeyHit` | src/wxir/optimizer/keys.rs:19-65 | An expression whose key is recorded has the recorded values |
| `WxNumbering.PureStep` | src/wxir/optimizer.rs:20-51 | A pure instruction, folded, kept or replaced, leaves every value held by what replaced it |
| `WxNumbering.GuardStep` | src/wxir/optimizer.rs:25-33 | A dropped duplicate guard could not have fired; a kept one leaves the same way with the same registers |
| `WxNumbering.CallStep` | src/wxir/optimizer.rs:47-50 | A runtime call makes the same call and gets the same answer |
| `WxNumberingRuns.InstsFollow` | src/wxir/optimizer.rs:16-53 | A numbered block follows the original block call by call and exit by exit |
| `WxNumberingRuns.RenameAgain` | src/wxir/optimizer.rs:100-113 | The final renaming changes nothing that a numbered block does |
| `WxNumberingRuns.BlocksTidy` | src/wxir/optimizer.rs:15-53 | Across all blocks what is replaced is gone and is replaced by what is kept, so following replacements ends |
| `WxNumberingRuns.RenamedBlock` | src/wxir/optimizer.rs:15-54 | Each renamed block does what the original block does |
| `WxDead.KeptBlock` | src/wxir/optimizer/dce.rs:5-36 | Each block does the same without its dead instructions |
| `WxDead.KeptInsts` | src/wxir/optimizer/dce.rs:17-34 | Backwards liveness: the kept instructions agree with all of them on everything live |
| `WxDead.BlockWithExits` | src/wxir/optimizer.rs:76-91 | Each block does the same with only the referenced exit metadata |
| `WxPreservation.OptimizedRun` | src/wxir/optimizer.rs:14-57 | Over any lawful domain: a run that is not stuck is the same run after the optimizer |
| `WxPreservation.OptimizePreservesMeaning` | src/wxir/optimizer.rs:14-57 | For every machine, entry and number of blocks, a verified function whose folded literal comparisons come out at 64 bits as at their width makes the same calls and reaches the same return or side exit with the same value per register |
| `WxReverify.OptimizedStillVerifies` | src/wxir/optimizer.rs:14-57 | What the optimizer makes of a verified function verifies |
| `WxReverify.ExactlyUnreferencedExitsRemoved` | src/wxir/optimizer.rs:76-91 | Exactly the exit metadata that is no longer referenced is gone; the rest is renamed |
| `WxReverify.OptimizedSingleDefs` | src/wxir/optimizer.rs:14-57 | Ids stay defined once |
| `WxReverify.OptimizedUses` | src/wxir/optimizer.rs:25-33 | Exits stay used at most once, and no use is invented |
| `WxReverify.EntryStateKept` | src/wxir/optimizer.rs:100-103 | The entry state is left alone |
| `WxFolding.FoldingKeepsMeaningExactlyInRange` | src/wxir/optimizer/keys.rs:129-162 | Exactly the literals that their type can hold are folded rightly: for any other one some verified region returns another answer after the optimizer |
| `WxFolding.FoldsRightExactly` | src/wxir/optimizer/keys.rs:129-162 | The optimizer keeps a region that compares two literals exactly when the 64-bit comparison is the comparison at their width |
| `WxFolding.CompareLiteralsVerifies` | src/wxir/verifier.rs:16-82 | Those regions are accepted by the verifier |
| `WxOptimize.Canonical` | src/wxir/optimizer.rs:93-98 | Following replacements terminates and gives the replacement |
| `WxOptimize.FoldedInstruction` | src/wxir/optimizer/keys.rs:88-112 | The table of literals gives the specified fold |
| `WxOptimize.NumberInstruction` | src/wxir/optimizer.rs:20-51 | One turn of the loop computes the specified tables |
| `WxOptimize.NumberBlocks` | src/wxir/optimizer.rs:15-53 | All blocks, with the replacements carried from block to block |
| `WxOptimize.RewriteFunction` | src/wxir/optimizer.rs:100-113 | Every use is rewritten |
| `WxOptimize.RemoveDeadInstructions` | src/wxir/optimizer/dce.rs:5-36 | The live set at the start and the reverse sweep compute the specified function |
| `WxOptimize.RemoveUnreferencedSideExits` | src/wxir/optimizer.rs:76-91 | The filter computes the specified function |
| `WxOptimize.Region.Optimize` | src/wxir/optimizer.rs:14-57 | The passes in place compute the optimized function |
| `Slices.SliceIndices` | src/wvm/objects.rs:146-197 | The loops in saturating arithmetic end and give the specified slice or the error of the first bad operand; what the slice is, is stated without its clamping by `Slices.UpFromTo`, `DownFromTo`, `NegativeFromEnd`, `BeforeBeginning`, `PastEnd` and `Defaults` |
| `Slices.CountUp` | src/wvm/objects.rs:166-172 | Counting up saturates only at or past the bound |
| `Slices.CountDown` | src/wvm/objects.rs:191-194 | Counting down never saturates |
| `Slices.ProgressionVisits` | src/wvm/objects.rs:159-195 | A slice selects exactly the indices that a walk from start by step visits before the stop |
| `Slices.CountBounds` | src/wvm/objects.rs:159-195 | The count is the number of steps that stay before the stop |
| `Slices.SliceInRange` | src/wvm/objects.rs:159-195 | All selected indices are valid, and strictly monotone in the sign of the step |
| `Slices.StepOneIsInterval` | src/wvm/objects.rs:122-197 | With step one, or none, a slice is the interval of the forward bounds |
| `Slices.ForwardSliceBounds` | src/wvm/objects.rs:122-144 | The interval is exactly the slice with step one of the same operands |
| `Slices.FullReverse` | src/wvm/objects.rs:173-195 | The slice of step minus one is the whole sequence backwards |
| `NativeOptimizer.FoldFollows` | src/adaptive_v2/native/optimizer.rs:432-468 | Constant folding keeps every value, the heap and every side exit of a block, folding only sums that fit in 64 bits |
| `NativeOptimizer.ForwardFollows` | src/adaptive_v2/native/optimizer.rs:243-282 | Store-to-load forwarding keeps every value and the heap of a block, for all aliasing of objects |
| `NativeOptimizer.NumberFollows` | src/adaptive_v2/native/optimizer.rs:284-312 | Numbering of additions keeps every value and the heap of a block |
| `NativeOptimizer.DirectFollows` | src/adaptive_v2/native/optimizer.rs:170-199 | Stripping program counters from direct operations keeps everything |
| `NativeOptimizer.PassSingle` | src/adaptive_v2/native/optimizer.rs:243-312 | Every pass keeps single assignment within blocks |
| `NativeOptimizer.PassesKeepReplay` | src/adaptive_v2/native/optimizer.rs:119-167 | The passes in any order and number keep the replayed result, side exit and heap, for all inputs and step limits |
| `NativeOptimizer.FoldBlock` | src/adaptive_v2/native/optimizer.rs:437-465 | The loop computes the folded block and reports a change exactly when there is one |
| `NativeOptimizer.ForwardBlock` | src/adaptive_v2/native/optimizer.rs:248-280 | The loop computes the forwarded block and reports a change exactly when there is one |
| `NativeOptimizer.NumberBlock` | src/adaptive_v2/native/optimizer.rs:288-310 | The loop computes the numbered block and reports a change exactly when there is one |
| `NativeOptimizer.DirectBlock` | src/adaptive_v2/native/optimizer.rs:173-198 | The loop computes the stripped block and reports a change exactly when there is one |
| `NativeOptimizer.RunPass` | src/adaptive_v2/native/optimizer.rs:131-159 | One pass over a snapshot; no reported change means the same snapshot |
| `Sequences.SlotRoundTrip` | src/value.rs:31-68 | Every value survives the tagged slot encoding, whose fields fit 64 bits |
| `Sequences.StorageHolds` | src/object/sequence/storage.rs:12-51 | Whatever strategy is chosen, the storage stands for the given values |
| `Sequences.AssignedContents` | src/object/sequence.rs:214-233 | Assignment, in place or widened, is assignment in the plain sequence |
| `Sequences.InsertedContents` | src/object/sequence.rs:239-260 | Insertion, in place or widened, is insertion in the plain sequence |
| `Sequences.RemovedContents` | src/object/sequence.rs:262-287 | Removal is removal in the plain sequence |
| `Sequences.SequenceObject.Set` | src/object/sequence.rs:214-233 | Refines the plain sequence; the layout version is the specified one, which moves exactly when the strategy does |
| `Sequences.SequenceObject.Insert` | src/object/sequence.rs:239-260 | Refines the plain sequence, keeps the strategy if the value is of its kind and moves the version |
| `Sequences.SequenceObject.Remove` | src/object/sequence.rs:262-287 | Refines the plain sequence and moves the version; out of range nothing changes |
| `Sequences.SequenceObject.ReplaceRange` | src/object/sequence.rs:289-294 | Refines the plain sequence and moves the version |
| `Sequences.SequenceObject.ReversePrefix` | src/object/sequence.rs:296-305 | Reverses a prefix of the plain sequence, or refuses and changes nothing |
| `Sequences.SequenceObject.IntegerSnapshot` | src/object/sequence.rs:118-126 | A snapshot exists exactly for integer or empty storage and stands for the whole contents |
| `Sequences.SequenceObject.CommitIntegerSnapshot` | src/object/sequence.rs:138-165 | Accepted exactly for the current version and strategy; then the contents are the committed integers, else nothing changes |
| `Sequences.LayoutFollowsAll` | src/object/sequence.rs:311-313 | Over any run the version never falls and, unsaturated, moves with strategy and length |
| `Sequences.AcceptedIsCurrent` | src/object/sequence.rs:150-156 | A snapshot whose version is still current meets the strategy and length it was taken from |
| `Sequences.SameLayoutOtherContents` | src/object/sequence.rs:214-222 | An assignment changes the contents under the same version exactly when the value is new at the index and the strategy takes it or the version is used up |
| `ObjectHeaps.AllocateIsNew` | src/object/heap.rs:402-422 | A new reference was never live nor spent, gets its object, and changes no other |
| `ObjectHeaps.RemoveSpends` | src/object/heap.rs:438-445 | Removal succeeds exactly on live references, which are then spent for good |
| `ObjectHeaps.SpentIsDead` | src/object/heap.rs:792-841 | A spent reference never resolves |
| `ObjectHeaps.AttributeSetValid` | src/object/heap.rs:574-612 | Setting an attribute keeps that equal shape ids mean the same class and the same field names exactly when the new shape, if any, is known or gets an unused id |
| `ObjectHeaps.InstantiatedValid` | src/object/heap.rs:489-501 | So does instantiation, for the shape without fields |
| `ObjectHeaps.InternDistinctExactly` | src/object/heap.rs:631-639 | Interning keeps ids distinct exactly when the key is known or the next id is unused |
| `ObjectHeaps.ExhaustedShapesCollide` | src/object/heap.rs:631-639 | Once ids are used up two new shapes share one |
| `ObjectHeaps.SetThenLookup` | src/object/heap.rs:541-612 | What was set is what linear search finds |
| `AttributeCache.PreparedIsUncached` | src/wvm/callables.rs:188-240 | An access through a site gives the answer and the heap of the access without it, and keeps the site right |
| `AttributeCache.HitIsField` | src/wvm/callables.rs:205-221 | A cached index is where linear search finds the name |
| `AttributeCache.StepKeepsRightExactly` | src/object/heap.rs:381-639 | A heap operation keeps all sites right exactly when the shape it asks for, if any, is known or gets an unused id |
| `AttributeCache.SitesAlwaysAgree` | src/wvm/callables.rs:188-240 | In every state that a program reaches without sharing a shape id, cached and uncached access agree |
| `AttributeCache.ExhaustedSiteIsWrong` | src/wvm/callables.rs:188-240 | At shape exhaustion a site answers with another field |
| `HeapObjects.AttributeSite.PreparedAttribute` | src/wvm/callables.rs:188-240 | The method on a site computes the specified access |
| `HeapObjects.ObjectHeap.Allocate` | src/object/heap.rs:402-422 | The in-place method computes the specified heap and result |
| `HeapObjects.ObjectHeap.Remove` | src/object/heap.rs:438-445 | The in-place method computes the specified heap and result |
| `HeapObjects.ObjectHeap.Instantiate` | src/object/heap.rs:489-501 | The in-place method computes the specified heap and result |
| `HeapObjects.ObjectHeap.SetAttribute` | src/object/heap.rs:574-612 | The in-place method computes the specified heap and result |
| `HeapObjects.ObjectHeap.InternShape` | src/object/heap.rs:631-639 | The in-place method computes the specified heap and id |
| `HeapObjects.ObjectHeap.CommitSnapshots` | src/object/heap.rs:691-713 | Accepted exactly when the lists are distinct and all current; then every named list holds exactly the committed integers or doubles in order, under the next version, and no other object changes; else nothing changes |
| `HeapObjects.WroteValid` | src/object/heap.rs:691-790 | Write-backs keep slots and shapes valid |
| `LoopCommit.ExecuteObjectLoopOnce` | src/adaptive_v2/integration.rs:1165-1461 | For any native code, the exact outcome: refused, failed or executed. A success puts every transaction, word by word in order, into the list that its input names under the next version, for a split pair into the list and a new one of the same floats, and changes nothing else; anything else leaves every object that existed before unchanged and, once inputs were accepted, nothing new |
| `LoopCommit.WriteTransactions` | src/adaptive_v2/integration.rs:1386-1458 | Written exactly when the transactions are of one kind, into different lists, and a widened list alone; then all of them, else the heap is what it was |
| `LoopCommit.CollectStates` | src/adaptive_v2/integration.rs:1245-1306 | The states describe the storages as they are, or one of the storages has none |
| `LoopCommit.ReadsCurrent` | src/adaptive_v2/integration.rs:1352-1376 | The version check of read-only lists never refuses |
| `LoopCommit.WroteTransactions` | src/adaptive_v2/integration.rs:1388-1405 | A written batch of one kind holds every transaction there was |
| `DynamicLoop.ExecuteDynamicObjectLoopOnce` | src/adaptive_v2/integration.rs:1463-1674 | The same for lists found by reference, with the exact outcome: native code gets the lists that the storages name and every other list or tuple that the inputs reach, and a success writes exactly the changed transactions, word by word; anything else leaves the heap as it was |
| `DynamicLoop.Collect` | src/adaptive_v2/integration.rs:1484-1525 | The breadth-first search ends and records exactly the lists and tuples that the inputs reach, once each; it refuses exactly when an object it reaches is gone or holds a value without a word |
| `DynamicLoop.WriteChanges` | src/adaptive_v2/integration.rs:1625-1671 | Written exactly when the changed states are lists of integers or floats, several only of floats and different ones; then all of them, else the heap is what it was |
| `CodeCache.SharedCodeCache.EvictShared` | src/adaptive_v2/native/cache.rs:214-240 | Idle stale entries leave in key order, then the least recently used idle ones, exactly as many as the limits ask for or until all are leased |
| `CodeCache.SharedCodeCache.Put` | src/adaptive_v2/native/cache.rs:83-133 | Insertion replaces the entry, evicts the old value and then evicts by the limits |
| `CodeCache.SharedCodeCache.Lease` | src/adaptive_v2/native/cache.rs:135-149 | A lease counts up and refreshes a present entry that is not stale |
| `CodeCache.SharedCodeCache.DropLease` | src/adaptive_v2/native/cache.rs:197-205 | Dropping counts down and evicts |
| `CodeCache.SharedCodeCache.InvalidateSnapshot` | src/adaptive_v2/native/cache.rs:162-170 | Invalidation marks exactly the entries of the snapshot and evicts |
| `CodeCache.SharedCodeCache.DrainEvicted` | src/adaptive_v2/native/cache.rs:151-153 | Draining hands over all evicted values |
| `CodeCache.EvictedKeeps` | src/adaptive_v2/native/cache.rs:214-240 | Eviction takes no leased entry, changes none, leaves no idle stale one, and ends within the limits or with all leased |
| `CodeCache.EvictedConserves` | src/adaptive_v2/native/cache.rs:214-240 | Eviction loses no value, whatever the sizes |
| `CodeCache.StepInv` | src/adaptive_v2/native/cache.rs:83-205 | Every operation, leased keys or not, keeps inserted = resident + evicted + drained and ends within the limits or with all leased; used bytes stay the sum of sizes while the counter can hold the insertion |
| `CodeCache.RunInv` | src/adaptive_v2/native/cache.rs:83-205 | In every run from the empty cache, whatever is inserted under leases: values conserved, limits kept or all leased |
| `CodeCache.LeasedValueStays` | src/adaptive_v2/native/cache.rs:173-205 | While a lease is out its entry stays with the same value, whatever happens under other keys |
| `CodeCache.StepCountsExactly` | src/adaptive_v2/native/cache.rs:83-102 | Insertion with or without a lease, and any other operation, keeps the lease counts exactly when no leased key is inserted again and no counter fills up |
| `CodeCache.ReinsertedUnderLease` | src/adaptive_v2/native/cache.rs:83-102 | A leased key that is inserted again can leave the cache under the lease |
| `TypedLists.TypedList.Push` | src/adaptive_v2/lists.rs:125-164 | Appends the word and records its edge in the heap, or changes neither list nor heap; it fails exactly when the edge cannot be recorded; the storage is the one whose kind `TypedLists.BuiltExactly` determines |
| `TypedLists.TypedList.Set` | src/adaptive_v2/lists.rs:176-211 | Replaces the word and records its edge in the heap, or changes neither list nor heap |
| `TypedLists.TypedList.Insert` | src/adaptive_v2/lists.rs:213-231 | Inserts the word, records its edge and widens, or changes neither list nor heap |
| `TypedLists.TypedList.Remove` | src/adaptive_v2/lists.rs:233-256 | Removes the word, or changes nothing |
| `TypedLists.TypedList.RecordReference` | src/adaptive_v2/lists.rs:281-286 | A handle becomes an edge of the list object |
| `TypedLists.TypedList.NativeIntegerLease` | src/adaptive_v2/lists.rs:267-279 | A lease exists exactly for integer storage |
| `TypedLists.LeaseIsCurrentExactly` | src/adaptive_v2/lists.rs:72-92 | A lease is current exactly when the number of successful mutations since is a multiple of 2^63; below that, when there was none |
| `TypedLists.CurrentLeaseDecodes` | src/adaptive_v2/lists.rs:302-313 | While current, its array is what the words of the list decode to in every heap |
| `TypedLists.IntegerWordDecodes` | src/adaptive_v2/lists.rs:323-333 | An unboxed integer word decodes to the same integer in every heap |
| `Handles.RemainingMisleadsExactly` | src/adaptive_v2/handles.rs:172-174 | The reported capacity decides about the next allocation except exactly when all 2^32 slot numbers are taken, none is free and the capacity is larger |
| `HeapRuns.DropForgetsBarrier` | src/adaptive_v2/heap/major.rs:79-88 | Dropping a cycle leaves the heap as it is exactly when nothing marks and the barrier is empty; otherwise the barrier is lost and later stores are not recorded |
| `Handles.MisleadingTable` | src/adaptive_v2/handles.rs:172-174 | A valid table that reports capacity which no allocation can use |
| `GraphBatch.ReservedAll` | src/adaptive_v2/heap/transaction.rs:59-68 | Once the room is used up the next reservation fails |
| `HeapRuns.BarrierIsHeld` | src/adaptive_v2/heap/major.rs:16-88 | With cycles starting, finishing and dropped in any overlap, the barrier holds exactly the targets stored while marking and after the latest stop of any cycle |
| `HeapRuns.OverlappedCycleExact` | src/adaptive_v2/heap/major.rs:16-88 | A cycle that others overlap releases exactly the old handles that neither start nor finish reach, counting as roots only the targets still held |
| `HeapRuns.AloneHoldsAll` | src/adaptive_v2/heap/major.rs:16-77 | Without overlap every stored target is held |
| `Interpreter.QuickIsPlain` | src/wvm/quickening.rs:59-114 | A quickened turn is the plain turn, whatever the registers hold |
| `Interpreter.QuickRunIsPlain` | src/wvm/quickening.rs:59-114 | Quickened runs of any length are plain runs |
| `WxPreservation.InRangeFoldsAtWidth` | src/wxir/optimizer/keys.rs:129-162 | Literals within their declared types are enough for every fold to come out at the width |
| `LoopCommit.HalfHasWords` | src/adaptive_v2/integration.rs:1219-1227 | The temporary half of a split pair has the words of the original |
| `DynamicLoop.SearchIsExact` | src/adaptive_v2/integration.rs:1484-1525 | A finished search has recorded exactly the reachable lists and tuples, all of them passable |
| `DynamicLoop.FindFixed` | src/adaptive_v2/integration.rs:1541-1554 | Each storage gets the recorded state of the list that its input names, or the run is refused |
| `DynamicLoop.OthersAre` | src/adaptive_v2/integration.rs:1555-1564 | The other lists are those recorded and not named by a storage, once each |
| `DynamicLoop.PassedIsReached` | src/adaptive_v2/integration.rs:1541-1564 | Storages and others together are exactly the lists and tuples that the inputs reach |
| `ObjectHeaps.CountingHasShapes` | src/object/heap.rs:631-639 | While the counter counts the next id is unused |
| `AttributeCache.CountingKeepsShapes` | src/object/heap.rs:631-639 | While the counter counts every step keeps the shapes apart |
| `AttributeCache.StartIsRight` | src/object/heap.rs:370-379 | A program starts with a valid heap and right sites |
| `AttributeCache.ExhaustedHeap` | src/object/heap.rs:631-639 | A valid heap with a used-up counter and two instances without fields, as the failing run needs it |
| `CodeCache.EvictedAccounted` | src/adaptive_v2/native/cache.rs:214-240 | Eviction keeps used bytes the sum of sizes |
| `CodeCache.PutAccountedExactly` | src/adaptive_v2/native/cache.rs:83-102 | Insertion keeps used bytes the sum of sizes exactly when the counter can hold them |
| `CodeCache.NextConserves` | src/adaptive_v2/native/cache.rs:83-205 | No operation loses or doubles a value |
| `CodeCache.RunAccounted` | src/adaptive_v2/native/cache.rs:83-205 | In every run whose insertions the counter can hold, used bytes are the sum of sizes |
| `CodeCache.NextCountsExactly` | src/adaptive_v2/native/cache.rs:83-205 | The leases of one key stay counted exactly when it is not inserted again under a lease and its counter does not fill up |
| `CodeCache.RunCounts` | src/adaptive_v2/native/cache.rs:83-205 | In every disciplined run active counts are the outstanding leases |
| `CodeCache.LeasedValueStaysThroughout` | src/adaptive_v2/native/cache.rs:173-205 | Over any run in which a lease stays out, its entry stays with the same value |
| `TypedLists.RecordedClassifies` | src/adaptive_v2/lists.rs:323-333 | A word whose edge could be recorded is never refused afterwards, so no edge is left behind |
| `HeapRuns.StepKeepsAge` | src/adaptive_v2/heap.rs:51-145 | No section but a minor collection ages or moves a live object |
| `HeapRuns.AgeCountsMinors` | src/adaptive_v2/heap/collection.rs:69-86 | In every run, a young handle of age a that stays live through k minor collections is old exactly when k is at least 1 and min(a + k, 255) has reached the promotion age; otherwise it is young of age min(a + k, 255) |
| `HeapRuns.SurvivorsGrowOld` | src/adaptive_v2/heap/collection.rs:69-86 | With a promotion age of at most 255, a new object that stays live is old exactly after that many minor collections, and after one if the age is 0 |
| `GraphBatch.GraphEdges` | src/adaptive_v2/heap/transaction.rs:69-88 | In an accepted batch a reference to another new object is its handle, any other reference is the handle that was given |
| `ValueWords.ImmediateExactly` | src/adaptive_v2/value_word.rs:24-56 | An integer is kept in the word exactly when the 47 payload bits can hold it |
| `ValueWords.PackingIsOnto` | src/adaptive_v2/value_word.rs:58-65 | Every payload of 48 bits is a handle that packs into the same word |
| `Safepoint.WaysOn` | src/adaptive_v2/safepoint.rs:69-200 | From each place exactly these sections can be entered: a running mutator may do anything, and only a parked, an idle and a requesting one waits, each for the condition of its loop |
| `Interpreter.LookedUpAreRead` | src/wvm/interpreter.rs:118-386 | For every instruction, the registers that the interpreter looks up, in order, are exactly those that the verifier checks, and the one it writes is the one that the verifier assigns |
| `Interpreter.PerformFollows` | src/wvm/interpreter.rs:118-386 | Performing an instruction on initialized operands moves along an edge and assigns the register it writes |
| `Interpreter.AssignedAt` | src/wvm/arguments.rs:6-29 | Each parameter register holds the argument of the same position |
| `Interpreter.ChooseByChooses` | src/wvm/interpreter.rs:375-383 | A program that compares its arguments and branches returns the first exactly when the comparison holds, for all six comparisons |
| `Interpreter.ConstantsCompute` | src/wvm/interpreter.rs:128-140 | Programs of one constant return it |
| `Interpreter.MovesCopy` | src/wvm/interpreter.rs:335-340 | A move copies its source |
| `Interpreter.LessCompares` | src/wvm/interpreter.rs:329-334 | The machine comparison compares its operands in order |
| `Interpreter.LogicComputes` | src/wvm/runtime_dispatch.rs:75-95 | The logic of truth values is conjunction and disjunction |
| `FloatNumbers.IntegerFloatExact` | src/wvm/numeric_semantics_core.rs:60-65 | An integer equals a binary64 pattern exactly when the pattern is finite and its number, counted in units of 2^-1074, is the integer |
| `FloatNumbers.FloatEqualExact` | src/wvm/equality.rs:20-21 | Finite patterns are equal exactly when they are the same number, others exactly when they are the same and no NaN |
| `FloatNumbers.PatternIsInteger` | src/wvm/numeric_semantics_core.rs:60-65 | For every integer of at most 53 bits: its own pattern equals it, and equals no other integer |
| `FloatNumbers.LargerIsLarger` | src/wvm/numeric_semantics_core.rs:60-65 | Larger patterns are larger numbers, so no two patterns of one sign are the same number |
| `Equality.ShallowIsSameAtTop` | src/wvm/equality.rs:20-51 | The comparison of two values without their items is exact: same number, same truth value, same reference or same text, or the error of a dangling reference |
| `Equality.LeafIsSameAtTop` | src/wvm/equality.rs:54-78 | So is the comparison of two objects that are not two lists or two tuples |
| `Equality.TopIsExact` | src/wvm/equality.rs:14-78 | Where nothing is followed, false is answered exactly on a clash |
| `WxVerify.VerifyPure` | src/wxir/verifier.rs:184-243 | Accepts exactly the operand and result types of the type rule, by the match of the source |
| `WxVerify.VerifyCast` | src/wxir/verifier.rs:492-527 | Accepts exactly the casts of the type rule, by the match of the source |
| `WxTyping.LiteralIsPattern` | src/wxir/verifier.rs:185-195 | An accepted literal is a pattern below 2 to the width of its type |
| `WxTyping.LiteralTypes` | src/wxir/verifier.rs:185-195 | Which types accept a literal, by their number of patterns: floats exactly the one float type of their width |
| `WxTyping.ZeroExtends` | src/wxir/verifier.rs:494-499 | Zero extension is accepted exactly when every unsigned integer of the first type is one of the second and the second has more patterns |
| `WxTyping.SignExtends` | src/wxir/verifier.rs:494-499 | Sign extension likewise for signed integers |
| `WxTyping.Truncates` | src/wxir/verifier.rs:500-503 | Truncation is accepted exactly where zero extension the other way is, to fewer patterns |
| `WxTyping.Bitcasts` | src/wxir/verifier.rs:518-520 | A bitcast is accepted exactly between numbers with equally many patterns |
| `WxTyping.Conversions` | src/wxir/verifier.rs:504-517 | Promotion widens floats, demotion is its reverse, integers convert to floats and to pointers and back |
| `WxTyping.ComparisonLanes` | src/wxir/verifier.rs:604-612 | A comparison has one truth value, or one for each lane |
| `WxMeaning.ChoiceReturns` | src/wxir/ir.rs:299-309 | For all literals a branch hands the value of the right side to the next block |
| `WxMeaning.GuardedLeaves` | src/wxir/ir.rs:225-230 | For all literals and both modes a guard leaves exactly when its condition is that of the mode, and delivers each register its value |
| `WxMeaning.CallingAnswers` | src/wxir/ir.rs:235-240 | For all literals a runtime call passes each register its value and the region gets the answer, or ends |
| `WxRepeats.NothingIsRepeated` | src/wxir/optimizer.rs:20-51 | In the optimized form of a verified function no block has two guards of the same condition and mode, and no computation twice, operands swapped or not where the operation allows it, unless a call lies between |
| `WxRepeats.NothingIsLeftToFold` | src/wxir/optimizer/keys.rs:88-147 | Nor does a comparison of two integer literals, or the logic of two truth literals, remain in it |
| `WxRepeats.NothingIsKeptInVain` | src/wxir/optimizer/dce.rs:5-36 | Once dead instructions are gone, each pure instruction that is left has a result that a state, a terminator or an instruction of the function names |
| `WxOptimize.LiveAtStart` | src/wxir/optimizer/dce.rs:5-19 | The loops over entry state, exit states and terminators compute the specified live set |
| `HeapObjects.CommittedHolds` | src/object/heap.rs:691-713 | A committed list holds exactly the committed integers or doubles in order, under the next version |
| `HeapObjects.SecondCommitRefused` | src/object/sequence.rs:150-156 | A second commit at the version of an accepted one is refused |
| `HeapObjects.WroteHolds` | src/object/heap.rs:691-713 | So does every list of an accepted batch |
| `LoopCommit.SnapshotHolds` | src/adaptive_v2/integration.rs:1245-1306 | The words that native code gets are the elements of the list in order, integers as they are, floats by their bits, widened integers as the widened floats; with the version of the list and whether it may be written |
| `LoopCommit.SplitExactly` | src/adaptive_v2/integration.rs:1195-1228 | Native code sees two lists instead of one exactly when it takes pairs and both storages are mutated lists of floats named by the same object; the second is new and has the same floats |
| `LoopCommit.Enter` | src/adaptive_v2/integration.rs:1195-1228 | The inputs of native code and the temporary half of a split pair, in place |
| `LoopCommit.RunEntered` | src/adaptive_v2/integration.rs:1245-1461 | The run on accepted inputs: the exact outcome, and all transactions or none |
| `DynamicLoop.WordExactly` | src/adaptive_v2/integration.rs:1484-1525 | A word tells which value it stands for: an integer itself, a float its bits, a truth value 0 or 1, an object its code |
| `DynamicLoop.SnapshotsGiven` | src/adaptive_v2/integration.rs:1541-1583 | For each storage and each other list or tuple, native code is given the words of the contents in order, the version, and whether it may be written |
| `DynamicLoop.ChangesAccepted` | src/adaptive_v2/integration.rs:1625-1671 | The write-backs of one strategy are accepted exactly when the changed lists are different ones |
| `DynamicLoop.UnchangedLeftAlone` | src/adaptive_v2/integration.rs:1635-1640 | A list whose transactions are missing or equal to what it held is left alone, its version too |
| `Slices.UpFromTo` | src/wvm/objects.rs:159-172 | For bounds within the sequence and a positive step, exactly start, start + step and so on below the stop |
| `Slices.StepOneUp` | src/wvm/objects.rs:159-172 | With step one exactly a, a + 1 up to b - 1 |
| `Slices.DownFromTo` | src/wvm/objects.rs:173-195 | For a negative step exactly start, start + step and so on above the stop |
| `Slices.DownFrom` | src/wvm/objects.rs:173-195 | And without a stop down to the first index |
| `Slices.NegativeFromEnd` | src/wvm/objects.rs:159-195 | A negative operand, down to minus the length, is that operand plus the length, for both signs of the step |
| `Slices.BeforeBeginning` | src/wvm/objects.rs:159-195 | An operand below minus the length is the beginning going up; going down nothing starts there and nothing stops |
| `Slices.PastEnd` | src/wvm/objects.rs:159-195 | An operand at or past the length is the last index to start from going down; going up nothing starts there and nothing stops |
| `Slices.Defaults` | src/wvm/objects.rs:159-195 | Missing operands are the two ends in the direction of the step |
| `Slices.OperandErrors` | src/wvm/objects.rs:146-158 | Exactly which error a slice gives, in the order step, start, stop |
| `Sequences.StrategyOfValues` | src/object/sequence/storage.rs:12-51 | Values are kept unboxed exactly when all are truth values, all small integers or all floats |
| `Sequences.InsertedStrategy` | src/object/sequence.rs:239-260 | The first value decides about the strategy; another keeps it exactly when it is of that kind or the storage takes anything |
| `ObjectHeaps.AttributeSetExactly` | src/object/heap.rs:574-612 | Accepted exactly on a live instance and for an initialized value that, if an object, is live; then the field of that name has the value and every other field is the same |
| `CodeCache.StaleExactly` | src/adaptive_v2/native/cache.rs:162-170 | In every run a resident entry is the one last inserted under its key, and stale exactly when its snapshot was invalidated since |
| `CodeCache.LeasedExactly` | src/adaptive_v2/native/cache.rs:135-149 | In every run a lease is granted exactly when the entry is resident and its snapshot was not invalidated since it was inserted |
| `CodeCache.InvalidatedNeverLeased` | src/adaptive_v2/native/cache.rs:162-170 | After an invalidation no key of the snapshot is leased until it is inserted again |
| `CodeCache.OnlyStaleWithinLimits` | src/adaptive_v2/native/cache.rs:214-240 | Within the limits eviction takes exactly the idle stale entries |
| `CodeCache.LeastRecentlyUsedGo` | src/adaptive_v2/native/cache.rs:228-240 | No idle entry stays that was used before one that went without being stale |
| `CodeCache.UsedIsNewest` | src/adaptive_v2/native/cache.rs:135-149 | Unless the clock wraps, an insertion or a granted lease makes the entry the one most recently used |
| `TypedLists.BuiltExactly` | src/adaptive_v2/lists.rs:125-164 | Words pushed onto an empty list are kept as integers exactly when all are unboxed integers, as floats exactly when all are floats, in order |
| `TypedLists.AssignedExactly` | src/adaptive_v2/lists.rs:176-211 | A replaced word leaves the kind of storage exactly when it is of that kind |
| `TypedLists.RemovedExactly` | src/adaptive_v2/lists.rs:233-256 | A removed word leaves the kind of storage and the other numbers |
| `TypedLists.ClassifyExactly` | src/adaptive_v2/lists.rs:322-333 | Exactly which words are unboxed integers, floats, generic, or errors |
| `NativeEffects.NothingLeftToAdd` | src/adaptive_v2/native/optimizer.rs:432-468 | After folding no addition of two constants of its block remains whose sum fits in 64 bits |
| `NativeEffects.NothingLeftToForward` | src/adaptive_v2/native/optimizer.rs:243-282 | After forwarding no field is read that was stored before in its block with nothing forgotten between, if the types agree |
| `NativeEffects.NothingAddedTwice` | src/adaptive_v2/native/optimizer.rs:284-312 | After numbering no addition is made twice in a block, in either order of its operands, without a barrier between |
| `NativeEffects.CountersDropped` | src/adaptive_v2/native/optimizer.rs:170-199 | Direct operations lose one program counter, all others none |
| `NativeOptimizer.TypesExactly` | src/adaptive_v2/native/optimizer.rs:379-397 | The type table knows exactly the ids that the snapshot defines, each by a type that it is given |
| `ObjectHeaps.AllocateSucceedsExactly` | src/object/heap.rs:402-422 | An object gets a place exactly when the vacated slot offered has a 32-bit generation left or, without one, a 32-bit slot number is left |

## Left out

- HeapRuns.MajorCycleExact: one cycle at a time; `HeapRuns.OverlappedCycleExact` is the statement for cycles that overlap.
- HeapRuns.RunValid: graph allocations that end half way, possible only beyond 2^32 slots (see `GcHeaps.GcHeap.AllocateGraph`), are not steps of a run.
- HeapRuns.PinProtects: promises no dropped references rather than unchanged ones, because stores may append.
- Safepoint.WorldStopped: says nothing about mutators that register while the operation runs; the source does not stop them.
- Safepoint.ServedIffNotDoomed: speaks of some schedule, not of fair ones; the source promises no liveness.
- WxRepeats.NothingIsKeptInVain: speaks of the function before unreferenced exits are removed; a value that only such an exit names is still computed afterwards, as in the source.
- WxPreservation.OptimizePreservesMeaning: requires that folded comparisons come out the same at both widths; a wrong fold whose result is never used would be harmless.
- WxSoundness.VerifiedNeverStuck: covers constants, binary, checked and compare operations, casts, guards and runtime calls.
- WxVerify.Verify: covers the same instructions; direct calls, loads, stores, pointer offsets, vector lanes, shuffles and sequence instructions are not part of this model.
- WxVerify.VerifyInstruction: covers the instructions of `WxVerify.Verify`.
- WxMachine.VerifiedMachineRun: floating-point and pointer operations are arbitrary functions of their operands; rounding and NaN payloads are not modelled.
- Interpreter.VerifiedRunsSafely: the runtime behind each instruction is an arbitrary function that never yields an uninitialized value; regions that run as compiled code and the profiling of their entries are not part of this model.
- Interpreter.ExecuteVerified: the same; quick code is part of it.
- Interpreter.Execute: a run is cut after any number of turns, because programs need not end.
- Equality.EqualIsSymmetric: floats are 64-bit patterns here too.
- Equality.ObjectEqual: the object kinds of `Equality.EqualIsExact`.
- Equality.EqualIsExact: floats are 64-bit patterns (`ProperFloats`), as the source's are; strings, big integers, lists and tuples; dictionary equality needs key uniqueness and is left out, and so are the other object kinds.
- AttributeCache.SitesAlwaysAgree: method sites (`prepared_method`) are left out; they are the same state machine over methods.
- LoopCommit.ExecuteObjectLoopOnce: the outer loop, which runs several rounds and discards the resume state of an earlier one, is left out; a refused split pair may leave its temporary list behind.
- DynamicLoop.ExecuteDynamicObjectLoopOnce: a transaction equal to the old contents is not written, as in the source, so of two storages that name one list only a changed one counts.
- CodeCache.RunAccounted: insertions that fill the byte counter up are excluded; `CodeCache.PutAccountedExactly` is the exact condition on one insertion before it evicts.
- CodeCache.UsedIsNewest: stops where the clock wraps; recency then starts again from zero, as in the source.
- NativeOptimizer.PassesKeepReplay: guarded inlining, scalar replacement and loop-invariant motion are left out; blocks write an id once and not after reading it, which the snapshot verifier enforces.
- TypedLists.TypedList.Push: recording the edge and classifying the word are one step; the source takes the heap lock twice.
- TypedLists.CurrentLeaseDecodes: requires fewer than 2^63 mutations since the lease.
- Sequences.SequenceObject.CommitIntegerSnapshot: float commits are modelled on the heap (`HeapObjects.ObjectHeap.CommitSnapshots`, `LoopCommit.CommitWidened`), not on the class.
- Code generation with Cranelift and LLVM, raw views, foreign calls, the command line, serialization, benchmarks and metrics: outside what a model can say.
- Profiles and permits, inline caches for calls, shape tables and bridges of the adaptive runtime: easier state machines of the same kind.
- The builder that produces region IR, the parser and the frontend.
- Handle allocation with a chosen generation and object transfer between heaps: they bypass the discipline that the theorems rest on.
- Counters that wrap at 2^64 are unbounded where only their growth matters (safepoint epochs and ids), and exact where wrapping matters (list versions, clocks, capacities).
