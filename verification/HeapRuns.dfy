/**
  Whole runs of the adaptive heap: any interleaving of allocations, stores,
  pins, minor collections and the two stops of major cycles, each one atomic
  under the state lock.
 */
module HeapRuns {
  import opened Wrappers
  import opened Handles
  import opened Tracing
  import opened HeapModel

  datatype Step =
    | Place(obj: GcObject)
    | PlaceGraph(batch: Batch)
    | Store(owner: StableHandle, target: StableHandle)
    | Pin(handle: StableHandle)
    | Unpin(handle: StableHandle)
    | Minor(roots: set<StableHandle>)
    | StartMajor
    | FinishMajor(roots: set<StableHandle>, marks: set<StableHandle>)
    | DropMajor

  ghost predicate Steps(c: GcConfig, h: Heap, s: Step, h': Heap) {
    match s
    case Place(obj) => h' == Placed(h, obj, c.allocationLimit).0
    case PlaceGraph(batch) => exists r :: GraphSpec(h, h', batch, c.allocationLimit, r)
    case Store(owner, target) => h' == Stored(h, owner, target).0
    case Pin(handle) => h' == Pinned(h, handle).0
    case Unpin(handle) => h' == Unpinned(h, handle).0
    case Minor(roots) => MinorSpec(h, h', roots, c.promotionAge)
    case StartMajor => h' == MajorStarted(h)
    case FinishMajor(roots, marks) => FinishSpec(h, h', roots, marks)
    case DropMajor => h' == MajorDropped(h)
  }

  ghost predicate IsRun(c: GcConfig, hs: seq<Heap>, steps: seq<Step>) {
    && |hs| == |steps| + 1
    && forall i :: 0 <= i < |steps| ==> Steps(c, hs[i], steps[i], hs[i + 1])
  }

  // An object may gain references, never lose any, and keeps its scalar.
  predicate Grown(a: GcObject, b: GcObject) {
    a.scalar == b.scalar && a.references <= b.references
  }

  // --------------------------------------------------------------- invariants

  lemma MajorMarksValid(h: Heap)
    requires h.Valid()
    ensures MajorStarted(h).Valid() && MajorDropped(h).Valid()
  {
  }

  // Every step keeps the heap invariant.
  lemma StepValid(c: GcConfig, h: Heap, s: Step, h': Heap)
    requires h.Valid() && Steps(c, h, s, h')
    ensures h'.Valid()
  {
    match s
    case Place(obj) => PlacedValid(h, obj, c.allocationLimit);
    case PlaceGraph(batch) =>
    case Store(owner, target) => StoredValid(h, owner, target);
    case Pin(handle) => PinnedValid(h, handle);
    case Unpin(handle) => UnpinnedValid(h, handle);
    case Minor(roots) =>
    case StartMajor => MajorMarksValid(h);
    case FinishMajor(roots, marks) =>
    case DropMajor => MajorMarksValid(h);
  }

  // No step ever makes a spent handle fresh again.
  lemma StepSpent(c: GcConfig, h: Heap, s: Step, h': Heap)
    requires h.Valid() && Steps(c, h, s, h')
    ensures KeepsSpent(h, h')
  {
    match s
    case Place(obj) => PlacedHandle(h, obj, c.allocationLimit);
    case PlaceGraph(batch) =>
    case Store(owner, target) => StoredCorrect(h, owner, target);
    case Pin(handle) => PinnedCorrect(h, handle);
    case Unpin(handle) => UnpinnedCorrect(h, handle);
    case Minor(roots) =>
    case StartMajor =>
    case FinishMajor(roots, marks) =>
    case DropMajor =>
  }

  // The heap invariant holds in every state of every run.
  lemma {:induction false} RunValid(c: GcConfig, hs: seq<Heap>, steps: seq<Step>, n: nat)
    requires IsRun(c, hs, steps) && hs[0].Valid() && n <= |steps|
    ensures hs[n].Valid() && KeepsSpent(hs[0], hs[n])
  {
    if n > 0 {
      RunValid(c, hs, steps, n - 1);
      StepValid(c, hs[n - 1], steps[n - 1], hs[n]);
      StepSpent(c, hs[n - 1], steps[n - 1], hs[n]);
    }
  }

  // ------------------------------------------------------- what pins protect

  // The live handles that the pins reach.
  ghost predicate Protected(h: Heap, g: StableHandle) {
    h.table.IsLive(g) && Reachable(h.Edges(), h.pins.Keys, g)
  }

  ghost predicate Kept(h: Heap, h': Heap, g: StableHandle) {
    h'.table.IsLive(g) && Grown(h.ObjectOf(g), h'.ObjectOf(g))
  }

  lemma PlaceKeeps(c: GcConfig, h: Heap, obj: GcObject, g: StableHandle)
    requires h.Valid() && h.table.IsLive(g)
    ensures Kept(h, Placed(h, obj, c.allocationLimit).0, g)
  {
    PlacedHandle(h, obj, c.allocationLimit);
    if Placed(h, obj, c.allocationLimit).1.Ok? {
      PlacedObjects(h, obj, c.allocationLimit);
      assert g in h.LiveSet();
    }
  }

  lemma StoreKeeps(h: Heap, owner: StableHandle, target: StableHandle, g: StableHandle)
    requires h.Valid() && h.table.IsLive(g)
    ensures Kept(h, Stored(h, owner, target).0, g)
  {
    StoredCorrect(h, owner, target);
    if g != owner {
      assert g in h.LiveSet() - {owner};
    }
  }

  lemma PinsKeep(h: Heap, pins: map<StableHandle, nat>, g: StableHandle)
    requires h.table.IsLive(g)
    ensures Kept(h, h.(pins := pins), g)
  {
  }

  lemma MarkingKeeps(h: Heap, g: StableHandle)
    requires h.table.IsLive(g)
    ensures Kept(h, MajorStarted(h), g) && Kept(h, MajorDropped(h), g)
  {
  }

  lemma GraphKeeps(h: Heap, h': Heap, batch: Batch, limit: Option<nat>, g: StableHandle)
    requires (exists r :: GraphSpec(h, h', batch, limit, r)) && h.table.IsLive(g)
    ensures Kept(h, h', g)
  {
    var r :| GraphSpec(h, h', batch, limit, r);
    assert g in h.LiveSet();
  }

  lemma MinorKeeps(h: Heap, h': Heap, roots: set<StableHandle>, promotionAge: nat, g: StableHandle)
    requires MinorSpec(h, h', roots, promotionAge) && Protected(h, g)
    ensures Kept(h, h', g)
  {
    ReachableTransfer(h.Edges(), h.Edges(), h.pins.Keys, MinorSeeds(h, roots), g);
    assert g in h'.LiveSet();
  }

  lemma FinishKeeps(h: Heap, h': Heap, roots: set<StableHandle>, marks: set<StableHandle>, g: StableHandle)
    requires FinishSpec(h, h', roots, marks) && Protected(h, g)
    ensures Kept(h, h', g)
  {
    ReachableTransfer(h.Edges(), h.Edges(), h.pins.Keys, FinishSeeds(h, roots), g);
    assert g in h'.LiveSet();
  }

  // No step takes away anything that the pins reach.
  lemma StepKeepsProtected(c: GcConfig, h: Heap, s: Step, h': Heap, g: StableHandle)
    requires h.Valid() && Steps(c, h, s, h') && Protected(h, g)
    ensures Kept(h, h', g)
  {
    hide Kept, GraphSpec, MinorSpec, FinishSpec, Heap.Valid, Placed, Stored, Reachable;
    match s {
      case Place(obj) => PlaceKeeps(c, h, obj, g);
      case PlaceGraph(batch) => GraphKeeps(h, h', batch, c.allocationLimit, g);
      case Store(owner, target) => StoreKeeps(h, owner, target, g);
      case Pin(handle) => PinsKeep(h, h'.pins, g);
      case Unpin(handle) => PinsKeep(h, h'.pins, g);
      case Minor(roots) => MinorKeeps(h, h', roots, c.promotionAge, g);
      case StartMajor => MarkingKeeps(h, g);
      case FinishMajor(roots, marks) => FinishKeeps(h, h', roots, marks, g);
      case DropMajor => MarkingKeeps(h, g);
    }
  }

  // When all that the pins reach is kept, what one pin reaches stays reached.
  lemma KeptBelowPin(h: Heap, h': Heap, pinned: StableHandle, g: StableHandle)
    requires pinned in h.pins && Reachable(h.Edges(), {pinned}, g)
    requires forall x :: Protected(h, x) ==> Kept(h, h', x)
    ensures Reachable(h'.Edges(), {pinned}, g) && (h.table.IsLive(g) ==> Protected(h, g))
  {
    forall x, child | Reachable(h.Edges(), {pinned}, x) && Edge(h.Edges(), x, child) ensures Edge(h'.Edges(), x, child) {
      ReachableTransfer(h.Edges(), h.Edges(), {pinned}, h.pins.Keys, x);
      assert Protected(h, x);
    }
    ReachableTransfer(h.Edges(), h'.Edges(), {pinned}, {pinned}, g);
    ReachableTransfer(h.Edges(), h.Edges(), {pinned}, h.pins.Keys, g);
  }

  // Whatever step is taken, all that a pinned handle reaches stays live, keeps
  // its contents and stays reached.
  lemma StepKeepsBelowPin(c: GcConfig, h: Heap, s: Step, h': Heap, pinned: StableHandle, g: StableHandle)
    requires h.Valid() && Steps(c, h, s, h') && pinned in h.pins
    requires h.table.IsLive(g) && Reachable(h.Edges(), {pinned}, g)
    ensures Reachable(h'.Edges(), {pinned}, g) && Kept(h, h', g)
  {
    forall x | Protected(h, x) ensures Kept(h, h', x) {
      StepKeepsProtected(c, h, s, h', x);
    }
    KeptBelowPin(h, h', pinned, g);
  }

  // As long as a handle stays pinned, nothing it reaches is ever lost: over any
  // run, with any number of collections with whatever roots.
  lemma {:induction false} PinProtects(
      c: GcConfig, hs: seq<Heap>, steps: seq<Step>, n: nat, pinned: StableHandle, g: StableHandle)
    requires IsRun(c, hs, steps) && hs[0].Valid() && n <= |steps|
    requires forall i :: 0 <= i < n ==> pinned in hs[i].pins
    requires hs[0].table.IsLive(g) && Reachable(hs[0].Edges(), {pinned}, g)
    ensures hs[n].table.IsLive(g) && Grown(hs[0].ObjectOf(g), hs[n].ObjectOf(g)) && Reachable(hs[n].Edges(), {pinned}, g)
  {
    if n > 0 {
      PinProtects(c, hs, steps, n - 1, pinned, g);
      RunValid(c, hs, steps, n - 1);
      StepKeepsBelowPin(c, hs[n - 1], steps[n - 1], hs[n], pinned, g);
    }
  }

  // ------------------------------------------------------------------- ageing

  // No other step than a minor collection ages or moves anything.
  lemma StepKeepsAge(c: GcConfig, h: Heap, s: Step, h': Heap, g: StableHandle)
    requires h.Valid() && Steps(c, h, s, h') && !s.Minor? && h.table.IsLive(g) && h'.table.IsLive(g)
    ensures (h'.IsOld(g) <==> h.IsOld(g)) && h'.AgeOf(g) == h.AgeOf(g)
  {
    match s {
      case Place(obj) =>
        PlacedHandle(h, obj, c.allocationLimit);
        if Placed(h, obj, c.allocationLimit).1.Ok? {
          PlacedObjects(h, obj, c.allocationLimit);
        }
      case PlaceGraph(batch) =>
      case Store(owner, target) => StoredCorrect(h, owner, target);
      case Pin(handle) => PinnedCorrect(h, handle);
      case Unpin(handle) => UnpinnedCorrect(h, handle);
      case StartMajor =>
      case FinishMajor(roots, marks) =>
      case DropMajor =>
    }
  }

  // The minor collections among the first `n` steps.
  function Minors(steps: seq<Step>, n: nat): nat
    requires n <= |steps|
  {
    if n == 0 then 0 else Minors(steps, n - 1) + if steps[n - 1].Minor? then 1 else 0
  }

  // One year for every minor collection, up to what a byte holds.
  function Older(age: nat, minors: nat): nat {
    if age + minors <= 255 then age + minors else 255
  }

  // A young handle that stays live through `k` minor collections, whatever else
  // happens, is old exactly when there was one and its age has come up to the promotion
  // age; until then its age counts those collections.
  lemma {:induction false} AgeCountsMinors(c: GcConfig, hs: seq<Heap>, steps: seq<Step>, n: nat, g: StableHandle)
    requires IsRun(c, hs, steps) && hs[0].Valid() && n <= |steps|
    requires forall i :: 0 <= i <= n ==> hs[i].table.IsLive(g)
    requires !hs[0].IsOld(g) && hs[0].AgeOf(g) <= 255
    ensures var k, age := Minors(steps, n), Older(hs[0].AgeOf(g), Minors(steps, n));
      && (hs[n].IsOld(g) <==> k >= 1 && age >= c.promotionAge)
      && (!hs[n].IsOld(g) ==> hs[n].AgeOf(g) == age)
  {
    hide Heap.Valid, Placed, Stored, Pinned, Unpinned, GraphSpec, FinishSpec;
    if n > 0 {
      AgeCountsMinors(c, hs, steps, n - 1, g);
      RunValid(c, hs, steps, n - 1);
      if !steps[n - 1].Minor? {
        StepKeepsAge(c, hs[n - 1], steps[n - 1], hs[n], g);
      }
    }
  }

  // So whatever survives as many minor collections as the promotion age asks for is old,
  // at the latest the 255th.
  lemma SurvivorsGrowOld(c: GcConfig, hs: seq<Heap>, steps: seq<Step>, n: nat, g: StableHandle)
    requires IsRun(c, hs, steps) && hs[0].Valid() && n <= |steps|
    requires forall i :: 0 <= i <= n ==> hs[i].table.IsLive(g)
    requires !hs[0].IsOld(g) && hs[0].AgeOf(g) == 0
    requires c.promotionAge <= 255 && Minors(steps, n) >= 1
    ensures hs[n].IsOld(g) <==> Minors(steps, n) >= c.promotionAge
  {
    AgeCountsMinors(c, hs, steps, n, g);
  }

  // ------------------------------------------------ collections are invisible

  // To what the seeds reach, a minor collection has not happened.
  lemma MinorInvisible(h: Heap, h': Heap, roots: set<StableHandle>, promotionAge: nat, g: StableHandle)
    requires h.Valid() && MinorSpec(h, h', roots, promotionAge)
    ensures Reachable(h.Edges(), MinorSeeds(h, roots), g) <==> Reachable(h'.Edges(), MinorSeeds(h', roots), g)
    ensures Reachable(h.Edges(), MinorSeeds(h, roots), g) ==>
      && (h.table.IsLive(g) <==> h'.table.IsLive(g))
      && h'.ObjectOf(g) == h.ObjectOf(g)
  {
    var seeds := MinorSeeds(h, roots);
    forall x, child | Reachable(h.Edges(), seeds, x) && Edge(h.Edges(), x, child) ensures Edge(h'.Edges(), x, child) {
      assert x in h'.LiveSet();
    }
    forall x, child | Reachable(h'.Edges(), seeds, x) && Edge(h'.Edges(), x, child) ensures Edge(h.Edges(), x, child) {
      assert x in h'.LiveSet();
    }
    if Reachable(h.Edges(), seeds, g) {
      ReachableTransfer(h.Edges(), h'.Edges(), seeds, seeds, g);
      if h'.table.IsLive(g) { assert g in h'.LiveSet(); }
    }
    if Reachable(h'.Edges(), seeds, g) {
      ReachableTransfer(h'.Edges(), h.Edges(), seeds, seeds, g);
    }
  }

  // ------------------------------------------------------------- major cycles

  predicate IsMutator(s: Step) {
    s.Place? || s.PlaceGraph? || s.Store? || s.Pin? || s.Unpin? || s.Minor?
  }

  // A run between the two stops of one major cycle.
  ghost predicate IsCycle(c: GcConfig, h0: Heap, hs: seq<Heap>, steps: seq<Step>) {
    && IsRun(c, hs, steps)
    && hs[0] == MajorStarted(h0)
    && forall i :: 0 <= i < |steps| ==> IsMutator(steps[i])
  }

  // The targets of the stores of the first `n` steps that succeeded.
  function StoredTargets(hs: seq<Heap>, steps: seq<Step>, n: nat): set<StableHandle>
    requires n <= |steps| < |hs|
  {
    if n == 0 then {}
    else
      StoredTargets(hs, steps, n - 1) +
      (if steps[n - 1].Store? && Stored(hs[n - 1], steps[n - 1].owner, steps[n - 1].target).1.Ok? then {steps[n - 1].target} else {})
  }

  // The steps feed the barrier with stored targets while it marks; every start, finish
  // or drop of a cycle empties it.
  lemma StepBarrier(c: GcConfig, h: Heap, s: Step, h': Heap)
    requires h.Valid() && Steps(c, h, s, h')
    ensures h'.marking == if IsMutator(s) then h.marking else s.StartMajor?
    ensures h'.barrier ==
      if !IsMutator(s) then {}
      else h.barrier + if h.marking && s.Store? && Stored(h, s.owner, s.target).1.Ok? then {s.target} else {}
  {
    match s
    case Place(obj) => PlacedHandle(h, obj, c.allocationLimit);
    case PlaceGraph(batch) =>
    case Store(owner, target) => StoredCorrect(h, owner, target);
    case Pin(handle) => PinnedCorrect(h, handle);
    case Unpin(handle) => UnpinnedCorrect(h, handle);
    case Minor(roots) =>
    case StartMajor =>
    case FinishMajor(roots, marks) =>
    case DropMajor =>
  }

  // A run from the start of one major cycle, with other cycles starting, finishing
  // and being dropped meanwhile.
  ghost predicate IsOverlapped(c: GcConfig, h0: Heap, hs: seq<Heap>, steps: seq<Step>) {
    IsRun(c, hs, steps) && hs[0] == MajorStarted(h0)
  }

  // The latest stop of any cycle among the first `n` steps, if there is one, is a start.
  predicate LatestStopStarts(steps: seq<Step>, n: nat)
    requires n <= |steps|
  {
    if n == 0 then true
    else if IsMutator(steps[n - 1]) then LatestStopStarts(steps, n - 1)
    else steps[n - 1].StartMajor?
  }

  // Step `i` stored a target while a cycle was marking, and no cycle stopped since.
  ghost predicate StillHeld(hs: seq<Heap>, steps: seq<Step>, n: nat, i: nat)
    requires n <= |steps| < |hs|
  {
    && i < n && steps[i].Store? && Stored(hs[i], steps[i].owner, steps[i].target).1.Ok?
    && LatestStopStarts(steps, i)
    && forall k :: i < k < n ==> IsMutator(steps[k])
  }

  ghost function HeldTargets(hs: seq<Heap>, steps: seq<Step>, n: nat): set<StableHandle>
    requires n <= |steps| < |hs|
  {
    set i | 0 <= i < n && StillHeld(hs, steps, n, i) :: steps[i].target
  }

  lemma HeldStep(hs: seq<Heap>, steps: seq<Step>, n: nat)
    requires 0 < n <= |steps| < |hs|
    ensures !IsMutator(steps[n - 1]) ==> HeldTargets(hs, steps, n) == {}
    ensures IsMutator(steps[n - 1]) ==>
      HeldTargets(hs, steps, n) ==
        HeldTargets(hs, steps, n - 1) + if StillHeld(hs, steps, n, n - 1) then {steps[n - 1].target} else {}
  {
    if IsMutator(steps[n - 1]) {
      forall i | 0 <= i < n - 1 ensures StillHeld(hs, steps, n, i) <==> StillHeld(hs, steps, n - 1, i) {
      }
    }
  }

  // With cycles overlapping in whatever way, the barrier holds exactly the targets
  // that were stored while marking and after the latest stop of any cycle.
  lemma {:induction false} BarrierIsHeld(c: GcConfig, h0: Heap, hs: seq<Heap>, steps: seq<Step>, n: nat)
    requires h0.Valid() && IsOverlapped(c, h0, hs, steps) && n <= |steps|
    ensures hs[n].Valid() && hs[n].barrier == HeldTargets(hs, steps, n)
    ensures hs[n].marking <==> LatestStopStarts(steps, n)
  {
    hide Steps, Heap.Valid, HeldTargets, Stored;
    MajorMarksValid(h0);
    if n == 0 {
      NothingHeld(hs, steps);
    } else {
      BarrierIsHeld(c, h0, hs, steps, n - 1);
      StepValid(c, hs[n - 1], steps[n - 1], hs[n]);
      StepBarrier(c, hs[n - 1], steps[n - 1], hs[n]);
      HeldStep(hs, steps, n);
    }
  }

  lemma NothingHeld(hs: seq<Heap>, steps: seq<Step>)
    requires |steps| < |hs|
    ensures HeldTargets(hs, steps, 0) == {}
  {
  }

  // Without overlap every stored target is held.
  lemma {:induction false} AloneHoldsAll(hs: seq<Heap>, steps: seq<Step>, n: nat)
    requires n <= |steps| < |hs| && forall i :: 0 <= i < |steps| ==> IsMutator(steps[i])
    ensures LatestStopStarts(steps, n) && HeldTargets(hs, steps, n) == StoredTargets(hs, steps, n)
  {
    hide Stored, HeldTargets;
    if n == 0 {
      NothingHeld(hs, steps);
    } else {
      AloneHoldsAll(hs, steps, n - 1);
      HeldStep(hs, steps, n);
    }
  }

  // While a cycle is marking, the barrier is exactly the set of stored targets.
  lemma BarrierIsStored(c: GcConfig, h0: Heap, hs: seq<Heap>, steps: seq<Step>, n: nat)
    requires h0.Valid() && IsCycle(c, h0, hs, steps) && n <= |steps|
    ensures hs[n].Valid() && hs[n].marking && hs[n].barrier == StoredTargets(hs, steps, n)
  {
    BarrierIsHeld(c, h0, hs, steps, n);
    AloneHoldsAll(hs, steps, n);
  }

  // What keeps an old handle alive through a major cycle.
  ghost predicate CycleKeeps(h0: Heap, h: Heap, roots: set<StableHandle>, targets: set<StableHandle>, g: StableHandle) {
    || Reachable(h0.Edges(), roots + h0.pins.Keys, g)
    || Reachable(h.Edges(), roots + h.pins.Keys + targets, g)
  }

  // A major cycle with any mutator steps between its stops releases exactly the
  // old handles that neither the heap at the start nor the heap at the finish
  // reaches, counting every target stored meanwhile as a root; survivors are
  // unchanged and unmoved, and the nursery is untouched.
  lemma MajorCycleExact(
      c: GcConfig, h0: Heap, hs: seq<Heap>, steps: seq<Step>, roots: set<StableHandle>, marks: set<StableHandle>, end: Heap)
    requires h0.Valid() && IsCycle(c, h0, hs, steps)
    requires forall g :: g in marks <==> Reachable(h0.Edges(), roots + h0.pins.Keys, g)
    requires FinishSpec(hs[|steps|], end, roots, marks)
    ensures var h := hs[|steps|];
      var targets := StoredTargets(hs, steps, |steps|);
      && end.Valid() && !end.marking
      && (forall g :: end.table.IsLive(g) <==> h.table.IsLive(g) && (!h.IsOld(g) || CycleKeeps(h0, h, roots, targets, g)))
      && (forall g :: end.table.IsLive(g) ==> end.ObjectOf(g) == h.ObjectOf(g) && end.table.At(g) == h.table.At(g))
      && end.nursery == h.nursery && end.pins == h.pins
  {
    BarrierIsStored(c, h0, hs, steps, |steps|);
    var h := hs[|steps|];
    assert FinishSeeds(h, roots) == roots + h.pins.Keys + StoredTargets(hs, steps, |steps|);
    forall g | end.table.IsLive(g) ensures end.ObjectOf(g) == h.ObjectOf(g) {
      assert g in end.LiveSet();
    }
  }

  // In particular all that the roots, the pins or a stored target reach at the
  // finish survives, with everything it holds.
  lemma MajorKeepsReachable(
      c: GcConfig, h0: Heap, hs: seq<Heap>, steps: seq<Step>, roots: set<StableHandle>, marks: set<StableHandle>, end: Heap, g: StableHandle)
    requires h0.Valid() && IsCycle(c, h0, hs, steps)
    requires forall g :: g in marks <==> Reachable(h0.Edges(), roots + h0.pins.Keys, g)
    requires FinishSpec(hs[|steps|], end, roots, marks)
    requires Reachable(hs[|steps|].Edges(), roots + hs[|steps|].pins.Keys + StoredTargets(hs, steps, |steps|), g)
    ensures hs[|steps|].table.IsLive(g) ==> end.table.IsLive(g) && end.ObjectOf(g) == hs[|steps|].ObjectOf(g)
    ensures Reachable(end.Edges(), roots + end.pins.Keys + StoredTargets(hs, steps, |steps|), g)
  {
    MajorCycleExact(c, h0, hs, steps, roots, marks, end);
    var h := hs[|steps|];
    var seeds := roots + h.pins.Keys + StoredTargets(hs, steps, |steps|);
    forall x, child | Reachable(h.Edges(), seeds, x) && Edge(h.Edges(), x, child) ensures Edge(end.Edges(), x, child) {
      assert end.table.IsLive(x);
    }
    ReachableTransfer(h.Edges(), end.Edges(), seeds, seeds, g);
  }

  // ------------------------------------------------------- overlapping cycles

  // Dropping a cycle leaves the heap as it is exactly when nothing marks and the
  // barrier is empty; a store after it is recorded no more.
  lemma DropForgetsBarrier(h: Heap, owner: StableHandle, target: StableHandle)
    requires h.Valid() && h.table.IsLive(owner) && h.table.IsLive(target)
    ensures MajorDropped(h) == h <==> !h.marking && h.barrier == {}
    ensures target in Stored(h, owner, target).0.barrier <==> h.marking || target in h.barrier
    ensures Stored(MajorDropped(h), owner, target).0.barrier == {} && !Stored(MajorDropped(h), owner, target).0.marking
  {
    MajorMarksValid(h);
    StoredCorrect(h, owner, target);
    StoredCorrect(MajorDropped(h), owner, target);
  }

  // So a cycle that other cycles overlap releases exactly the old handles that neither
  // the heap at its start nor the heap at its finish reaches, counting as roots only
  // the targets still held.
  lemma OverlappedCycleExact(
      c: GcConfig, h0: Heap, hs: seq<Heap>, steps: seq<Step>, roots: set<StableHandle>, marks: set<StableHandle>, end: Heap)
    requires h0.Valid() && IsOverlapped(c, h0, hs, steps)
    requires forall g :: g in marks <==> Reachable(h0.Edges(), roots + h0.pins.Keys, g)
    requires FinishSpec(hs[|steps|], end, roots, marks)
    ensures var h := hs[|steps|];
      var targets := HeldTargets(hs, steps, |steps|);
      && end.Valid()
      && (forall g :: end.table.IsLive(g) <==> h.table.IsLive(g) && (!h.IsOld(g) || CycleKeeps(h0, h, roots, targets, g)))
      && (forall g :: end.table.IsLive(g) ==> end.ObjectOf(g) == h.ObjectOf(g) && end.table.At(g) == h.table.At(g))
  {
    BarrierIsHeld(c, h0, hs, steps, |steps|);
    var h := hs[|steps|];
    assert FinishSeeds(h, roots) == roots + h.pins.Keys + HeldTargets(hs, steps, |steps|);
    forall g | end.table.IsLive(g) ensures end.ObjectOf(g) == h.ObjectOf(g) {
      assert g in end.LiveSet();
    }
  }
}
