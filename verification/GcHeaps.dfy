/**
  The adaptive heap updated in place (src/adaptive_v2/heap.rs, heap/collection.rs,
  heap/major.rs, heap/transaction.rs). Each method is one critical section under
  the state lock and is tied to its function or relation in `HeapModel`.
 */
module GcHeaps {
  import opened MachineWords
  import opened Wrappers
  import opened Handles
  import opened Tracing
  import opened HeapModel
  import opened MinorCopy
  import opened MajorSweep
  import opened GraphBatch

  // A hash set or a key set in whatever order its iterator has.
  method Enumerate(s: set<StableHandle>) returns (q: seq<StableHandle>)
    ensures Elements(q) == s
  {
    q := [];
    var rest := s;
    while rest != {}
      invariant Elements(q) + rest == s
      decreases rest
    {
      var h :| h in rest;
      q := q + [h];
      rest := rest - {h};
    }
  }

  class GcHeap {
    const config: GcConfig
    const handles: StableHandleTable<Location>
    var nursery: seq<Option<NurseryCell>>
    var oldSpace: seq<Option<GcObject>>
    var hostPins: map<StableHandle, nat>
    var remembered: set<StableHandle>
    var concurrentBarrier: set<StableHandle>
    var marking: bool
    var live: nat

    function View(): Heap
      reads this, handles
    {
      Heap(handles.View(), nursery, oldSpace, hostPins, remembered, concurrentBarrier, marking, live)
    }

    ghost predicate Valid()
      reads this, handles
    {
      View().Valid()
    }

    constructor (config: GcConfig, runtime: nat)
      ensures Valid() && fresh(handles) && this.config == config
      ensures View().LiveSet() == {} && hostPins == map[] && !marking
    {
      this.config := config;
      var capacity := if config.allocationLimit.Some? then config.allocationLimit.value else 0xFFFF_FFFF;
      handles := new StableHandleTable(runtime, capacity);
      nursery, oldSpace, hostPins, remembered := [], [], map[], {};
      concurrentBarrier, marking, live := {}, false, 0;
      new;
      assert View().LiveSet() == {};
    }

    // The section of `allocate_with_roots` after the optional collection.
    method Place(obj: GcObject) returns (r: Result<StableHandle, GcError>)
      requires Valid()
      modifies this, handles
      ensures Valid() && (View(), r) == Placed(old(View()), obj, config.allocationLimit)
    {
      PlacedValid(View(), obj, config.allocationLimit);
      if config.allocationLimit.Some? && live >= config.allocationLimit.value {
        return Err(AllocationLimit);
      }
      var index := |nursery|;
      var outcome := handles.Allocate(Nursery(index));
      match outcome
      case Err(error) =>
        r := Err(InvalidHandle(error));
      case Ok(handle) =>
        nursery := nursery + [Some(NurseryCell(obj, 0))];
        live := live + 1;
        r := Ok(handle);
    }

    // With `collect_every_allocation` a minor collection comes first.
    method AllocateWithRoots(obj: GcObject, roots: seq<StableHandle>) returns (r: Result<StableHandle, GcError>)
      requires Valid()
      modifies this, handles
      ensures Valid()
      ensures exists h: Heap ::
        && (if config.collectEveryAllocation then MinorSpec(old(View()), h, Elements(roots), config.promotionAge) else h == old(View()))
        && h.Valid() && (View(), r) == Placed(h, obj, config.allocationLimit)
    {
      if config.collectEveryAllocation {
        CopyNursery(roots);
      }
      ghost var h := View();
      r := Place(obj);
      assert (View(), r) == Placed(h, obj, config.allocationLimit);
    }

    method Resolve(handle: StableHandle) returns (r: Result<GcObject, GcError>)
      ensures r == ObjectAt(View(), handle)
    {
      match handles.View().Resolve(handle)
      case Err(error) =>
        r := Err(InvalidHandle(error));
      case Ok(location) =>
        var cell := CellIn(nursery, oldSpace, location);
        r := if cell.Some? then Ok(cell.value) else Err(InvalidHandle(Stale));
    }

    method PinHost(handle: StableHandle) returns (r: Result<(), GcError>)
      requires Valid()
      modifies this`hostPins
      ensures Valid() && (View(), r) == Pinned(old(View()), handle)
    {
      PinnedValid(View(), handle);
      match handles.View().Resolve(handle)
      case Err(error) =>
        r := Err(InvalidHandle(error));
      case Ok(_) =>
        var count := if handle in hostPins then hostPins[handle] else 0;
        if count >= USIZE_MAX {
          hostPins := hostPins[handle := count];
          r := Err(HostPinOverflow);
        } else {
          hostPins := hostPins[handle := count + 1];
          r := Ok(());
        }
    }

    method UnpinHost(handle: StableHandle) returns (r: Result<(), GcError>)
      requires Valid()
      modifies this`hostPins
      ensures Valid() && (View(), r) == Unpinned(old(View()), handle)
    {
      UnpinnedValid(View(), handle);
      match handles.View().Resolve(handle)
      case Err(error) =>
        return Err(InvalidHandle(error));
      case Ok(_) =>
        if handle in hostPins {
          if hostPins[handle] > 1 {
            hostPins := hostPins[handle := hostPins[handle] - 1];
          } else {
            hostPins := hostPins - {handle};
          }
        }
        return Ok(());
    }

    method StoreReference(owner: StableHandle, target: StableHandle) returns (r: Result<(), GcError>)
      requires Valid()
      modifies this
      ensures Valid() && (View(), r) == Stored(old(View()), owner, target)
    {
      StoredValid(View(), owner, target);
      var ownerLocation, targetLocation;
      match handles.View().Resolve(owner) {
        case Err(error) => return Err(InvalidHandle(error));
        case Ok(l) => ownerLocation := l;
      }
      match handles.View().Resolve(target) {
        case Err(error) => return Err(InvalidHandle(error));
        case Ok(l) => targetLocation := l;
      }
      match ownerLocation {
        case Nursery(i) =>
          if i >= |nursery| || nursery[i].None? {
            return Err(InvalidHandle(Stale));
          }
          var cell := nursery[i].value;
          nursery := nursery[i := Some(NurseryCell(GcObject(cell.obj.scalar, cell.obj.references + [target]), cell.age))];
        case Old(i) =>
          if i >= |oldSpace| || oldSpace[i].None? {
            return Err(InvalidHandle(Stale));
          }
          var obj := oldSpace[i].value;
          oldSpace := oldSpace[i := Some(GcObject(obj.scalar, obj.references + [target]))];
      }
      if ownerLocation.Old? && targetLocation.Nursery? {
        remembered := remembered + {owner};
      }
      if marking {
        concurrentBarrier := concurrentBarrier + {target};
      }
      r := Ok(());
    }

    // The young handles that the roots, the pins and the remembered owners reach.
    method TraceYoung(roots: seq<StableHandle>) returns (reachable: set<StableHandle>)
      requires Valid()
      ensures forall h :: h in reachable <==>
        IsYoung(View(), h) && Reachable(View().Edges(), MinorSeeds(View(), Elements(roots)), h)
    {
      ghost var h0 := View();
      var pins := Enumerate(hostPins.Keys);
      var owners := Enumerate(remembered);
      var queue := roots + pins + owners;
      assert Elements(queue) == MinorSeeds(h0, Elements(roots)) by {
        assert Elements(queue) == Elements(roots) + Elements(pins) + Elements(owners);
      }
      ghost var seeds := Elements(queue);
      var visited := {};
      reachable := {};
      TraceStart(h0.Edges(), queue);
      while |queue| > 0
        invariant TraceInvariant(h0.Edges(), seeds, visited, queue)
        invariant forall h :: h in reachable <==> h in visited && IsYoung(h0, h)
        decreases Universe(h0.Edges(), seeds) - visited, |queue|
      {
        TraceStep(h0.Edges(), seeds, visited, queue);
        var handle := queue[0];
        queue := queue[1..];
        if handle in visited {
          continue;
        }
        visited := visited + {handle};
        match handles.View().Resolve(handle)
        case Err(_) =>
          assert handle !in h0.Edges();
          assert queue + [] == queue;
        case Ok(location) =>
          if location.Nursery? {
            reachable := reachable + {handle};
          }
          var cell := CellIn(nursery, oldSpace, location);
          assert handle in h0.Edges() && cell.Some?;
          queue := queue + cell.value.references;
      }
      assert queue == [];
      TraceEnd(h0.Edges(), seeds, visited);
    }

    // One turn of the copying loop.
    method CopyHandle(
        ghost h0: Heap, handle: StableHandle, reachable: set<StableHandle>, toSpace: seq<Option<NurseryCell>>,
        ghost done: set<StableHandle>, ghost moved: seq<StableHandle>, ghost promoted: seq<StableHandle>)
      returns (toSpace': seq<Option<NurseryCell>>, ghost moved': seq<StableHandle>, ghost promoted': seq<StableHandle>)
      requires Mapped(h0.table, h0.nursery, h0.oldSpace) && h0.table.IsLive(handle) && handle !in done
      requires CopyParts(h0, reachable, config.promotionAge, done, handles.View(), live, nursery, toSpace, oldSpace, moved, promoted)
      modifies this`nursery, this`oldSpace, this`live, handles
      ensures CopyParts(
                h0, reachable, config.promotionAge, done + {handle}, handles.View(), live, nursery, toSpace', oldSpace, moved', promoted')
    {
      toSpace', moved', promoted' := toSpace, moved, promoted;
      ghost var t := handles.View();
      CellToVisit(h0, reachable, config.promotionAge, done, t, live, nursery, toSpace, oldSpace, moved, promoted, handle);
      var location := handles.View().At(handle);
      if location.Old? {
        SkipStep(h0, reachable, config.promotionAge, done, t, live, nursery, toSpace, oldSpace, moved, promoted, handle);
        return;
      }
      var cell := nursery[location.index].value;
      var age := AgedBy(cell.age);
      if handle !in reachable {
        DropStep(h0, reachable, config.promotionAge, done, t, live, nursery, toSpace, oldSpace, moved, promoted, handle);
        nursery := nursery[location.index := None];
        var _ := handles.Release(handle);
        live := live - 1;
      } else if age >= config.promotionAge {
        PromoteStep(h0, reachable, config.promotionAge, done, t, live, nursery, toSpace, oldSpace, moved, promoted, handle);
        nursery := nursery[location.index := None];
        var _ := handles.Relocate(handle, Old(|oldSpace|));
        oldSpace := oldSpace + [Some(cell.obj)];
        promoted' := promoted + [handle];
      } else {
        MoveStep(h0, reachable, config.promotionAge, done, t, live, nursery, toSpace, oldSpace, moved, promoted, handle);
        nursery := nursery[location.index := None];
        var _ := handles.Relocate(handle, Nursery(|toSpace|));
        toSpace' := toSpace + [Some(NurseryCell(cell.obj, age))];
        moved' := moved + [handle];
      }
    }

    // The copying loop.
    method CopyLive(ghost h0: Heap, reachable: set<StableHandle>)
      returns (toSpace: seq<Option<NurseryCell>>, ghost done: set<StableHandle>, ghost moved: seq<StableHandle>, ghost promoted: seq<StableHandle>)
      requires Valid() && View() == h0
      modifies this`nursery, this`oldSpace, this`live, handles
      ensures forall g :: h0.table.IsLive(g) ==> g in done
      ensures CopyParts(h0, reachable, config.promotionAge, done, handles.View(), live, nursery, toSpace, oldSpace, moved, promoted)
    {
      StartParts(h0, reachable, config.promotionAge);
      var liveHandles := handles.View().LiveHandles();
      toSpace, done, moved, promoted := [], {}, [], [];
      for k := 0 to |liveHandles|
        invariant done == Elements(liveHandles[..k])
        invariant CopyParts(h0, reachable, config.promotionAge, done, handles.View(), live, nursery, toSpace, oldSpace, moved, promoted)
      {
        var handle := liveHandles[k];
        assert handle !in done && h0.table.IsLive(handle);
        assert Elements(liveHandles[..k + 1]) == done + {handle};
        toSpace, moved, promoted := CopyHandle(h0, handle, reachable, toSpace, done, moved, promoted);
        done := done + {handle};
      }
      assert liveHandles[..|liveHandles|] == liveHandles;
      assert forall g :: h0.table.IsLive(g) ==> g in liveHandles;
    }

    // A minor collection.
    method CopyNursery(roots: seq<StableHandle>)
      requires Valid()
      modifies this, handles
      ensures Valid() && MinorSpec(old(View()), View(), Elements(roots), config.promotionAge)
    {
      ghost var h0 := View();
      var reachable := TraceYoung(roots);
      var toSpace;
      ghost var done, moved, promoted;
      toSpace, done, moved, promoted := CopyLive(h0, reachable);
      nursery := toSpace;
      EndMinor(h0, Elements(roots), reachable, config.promotionAge, done, handles.View(), live, toSpace, oldSpace, moved, promoted);
      remembered := remembered * handles.View().LiveSet();
      assert remembered == h0.remembered;
      assert View() == h0.(table := handles.View(), nursery := toSpace, oldSpace := oldSpace, live := live);
    }

    // The references of a batch that the heap cannot accept, if any.
    method CheckReferences(batch: Batch) returns (r: Result<(), GcError>)
      ensures r.Ok? <==> forall i, j :: 0 <= i < |batch| && 0 <= j < |batch[i]| ==> ReferenceAccepted(View(), |batch|, batch[i][j])
    {
      for i := 0 to |batch|
        invariant forall a, j :: 0 <= a < i && 0 <= j < |batch[a]| ==> ReferenceAccepted(View(), |batch|, batch[a][j])
      {
        for j := 0 to |batch[i]|
          invariant forall b :: 0 <= b < j ==> ReferenceAccepted(View(), |batch|, batch[i][b])
        {
          match batch[i][j]
          case Object(index) =>
            if index >= |batch| {
              assert !ReferenceAccepted(View(), |batch|, batch[i][j]);
              return Err(InvalidHandle(Stale));
            }
          case External(handle) =>
            ResolveIsLive(View().table, handle);
            match handles.View().Resolve(handle) {
              case Err(error) =>
                assert !ReferenceAccepted(View(), |batch|, batch[i][j]);
                return Err(InvalidHandle(error));
              case Ok(_) =>
            }
        }
      }
      r := Ok(());
    }

    // The checks before anything is touched.
    method CheckBatch(batch: Batch) returns (r: Result<(), GcError>)
      ensures r.Ok? <==> GraphAccepted(View(), batch, config.allocationLimit)
    {
      var requested := |batch|;
      if (config.allocationLimit.Some? && live + requested > config.allocationLimit.value)
        || handles.View().RemainingCapacity() < requested
      {
        return Err(AllocationLimit);
      }
      r := CheckReferences(batch);
    }

    // The section of `allocate_graph_with_roots` after the optional collection.
    // It is all-or-nothing exactly when the slot numbers last for a batch that is
    // accepted, which the remaining capacity does not foresee in a table of more than
    // 2^32 slots: there it can end half way, with a handle for every number left.
    method AllocateGraph(batch: Batch) returns (r: Result<seq<StableHandle>, GcError>)
      requires Valid()
      modifies this, handles
      ensures GraphSpec(old(View()), View(), batch, config.allocationLimit, r)
        <==> !GraphAccepted(old(View()), batch, config.allocationLimit) || |batch| <= old(View()).table.Room()
      ensures old(View()).table.Room() < |batch| && GraphAccepted(old(View()), batch, config.allocationLimit) ==>
        && r == Err(InvalidHandle(Capacity))
        && View().live == old(View()).live && |View().LiveSet()| == |old(View()).LiveSet()| + old(View()).table.Room()
    {
      hide Table.Valid, Mapped, Covered, ReservedSpec, PatchedSpec;
      ghost var h := View();
      var checked := CheckBatch(batch);
      if checked.Err? {
        return Err(checked.error);
      }
      var issued := ReserveCells(|batch|);
      if issued.Err? {
        assert !GraphSpec(h, View(), batch, config.allocationLimit, Err(issued.error));
        return Err(issued.error);
      }
      ghost var table := handles.View();
      PatchCells(h, batch, issued.value, |nursery| - |batch|);
      live := live + |batch|;
      BatchCorrect(h, batch, config.allocationLimit, table, issued.value, nursery);
      assert View() == h.(table := table, nursery := nursery, live := h.live + |batch|);
      r := Ok(issued.value);
    }

    // One empty cell and one handle per requested object; `live` is still to be raised.
    method ReserveCells(requested: nat) returns (r: Result<seq<StableHandle>, GcError>)
      requires handles.View().Valid()
      modifies this`nursery, handles
      ensures r.Ok? <==> requested <= old(handles.View()).Room()
      ensures r.Ok? ==> |r.value| == requested && |nursery| == old(|nursery|) + requested
      ensures r.Ok? ==> nursery[..old(|nursery|)] == old(nursery)
      ensures r.Ok? ==> forall i :: old(|nursery|) <= i < |nursery| ==> nursery[i] == Some(NurseryCell(EMPTY_OBJECT, 0))
      ensures r.Ok? ==> ReservedSpec(old(handles.View()), old(|nursery|), requested, handles.View(), r.value)
      ensures r.Err? ==>
        && r.error == InvalidHandle(Capacity)
        && |handles.View().LiveSet()| == |old(handles.View()).LiveSet()| + old(handles.View()).Room()
    {
      ghost var table, first := handles.View(), |nursery|;
      var issued: seq<StableHandle> := [];
      for k := 0 to requested
        invariant handles.View().Valid() && |nursery| == first + k && |issued| == k
        invariant nursery[..first] == old(nursery)
        invariant forall i :: first <= i < |nursery| ==> nursery[i] == Some(NurseryCell(EMPTY_OBJECT, 0))
        invariant k <= table.Room() && (handles.View(), issued) == Reserved(table, first, k)
      {
        if k < table.Room() {
          ReservedRoom(table, first, k);
        } else {
          ReservedAll(table, first);
        }
        var outcome := handles.Allocate(Nursery(|nursery|));
        if outcome.Err? {
          return Err(InvalidHandle(outcome.error));
        }
        nursery := nursery + [Some(NurseryCell(EMPTY_OBJECT, 0))];
        issued := issued + [outcome.value];
      }
      var _, _ := ReservedCorrect(table, first, requested);
      return Ok(issued);
    }

    // The requested references written into the reserved cells.
    method PatchCells(ghost h: Heap, batch: Batch, issued: seq<StableHandle>, batchStart: nat)
      requires PatchedSpec(h.nursery, batch, issued, 0, nursery) && batchStart == |h.nursery|
      modifies this`nursery
      ensures PatchedSpec(h.nursery, batch, issued, |batch|, nursery)
    {
      for index := 0 to |batch|
        invariant PatchedSpec(h.nursery, batch, issued, index, nursery)
      {
        if nursery[batchStart + index].Some? {
          var cell := nursery[batchStart + index].value;
          nursery := nursery[batchStart + index := Some(NurseryCell(GcObject(None, Targets(batch[index], issued)), cell.age))];
        }
      }
    }

    // One turn of the sweeping loop at the end of a major cycle.
    method SweepHandle(ghost h: Heap, handle: StableHandle, marked: set<StableHandle>, ghost done: set<StableHandle>)
      requires Mapped(h.table, h.nursery, h.oldSpace) && h.table.IsLive(handle) && handle !in done
      requires SweepTable(h, marked, done, handles.View(), live) && SweepCells(h, handles.View(), oldSpace)
      modifies this`oldSpace, this`live, handles
      ensures SweepTable(h, marked, done + {handle}, handles.View(), live) && SweepCells(h, handles.View(), oldSpace)
    {
      ghost var t := handles.View();
      assert t.IsLive(handle) && t.At(handle) == h.table.At(handle);
      if handles.View().At(handle).Old? && handle !in marked {
        SweepRelease(h, marked, done, handle, t, live);
        SweepClear(h, t, Released(t, handle).0, handle, oldSpace);
        var released := handles.Release(handle);
        oldSpace := oldSpace[released.value.index := None];
        live := live - 1;
      } else {
        SweepKeep(h, marked, done, handle, t, live);
      }
    }

    // The references that are reachable now, for the end of a major cycle.
    method TraceCurrent(seed: seq<StableHandle>) returns (marked: set<StableHandle>)
      requires Valid()
      ensures forall h :: h in marked <==> Reachable(View().Edges(), Elements(seed), h)
    {
      ghost var edges, seeds := View().Edges(), Elements(seed);
      marked := {};
      var queue := seed;
      TraceStart(edges, seed);
      while |queue| > 0
        invariant TraceInvariant(edges, seeds, marked, queue)
        decreases Universe(edges, seeds) - marked, |queue|
      {
        TraceStep(edges, seeds, marked, queue);
        var handle := queue[0];
        queue := queue[1..];
        if handle in marked {
          continue;
        }
        marked := marked + {handle};
        var found := Resolve(handle);
        ResolveIsLive(View().table, handle);
        match found
        case Ok(obj) =>
          assert handle in edges && edges[handle] == obj.references;
          queue := queue + obj.references;
        case Err(_) =>
          assert handle !in edges;
          assert queue + [] == queue;
      }
      assert queue == [];
      TraceEnd(edges, seeds, marked);
    }

    // The sweeping loop.
    method SweepLive(ghost h: Heap, marked: set<StableHandle>) returns (ghost done: set<StableHandle>)
      requires Valid() && View() == h
      modifies this`oldSpace, this`live, handles
      ensures forall g :: h.table.IsLive(g) ==> g in done
      ensures SweepTable(h, marked, done, handles.View(), live) && SweepCells(h, handles.View(), oldSpace)
    {
      SweepStart(h, marked);
      var liveHandles := handles.View().LiveHandles();
      done := {};
      for k := 0 to |liveHandles|
        invariant done == Elements(liveHandles[..k])
        invariant SweepTable(h, marked, done, handles.View(), live) && SweepCells(h, handles.View(), oldSpace)
      {
        var handle := liveHandles[k];
        assert handle !in done && h.table.IsLive(handle);
        assert Elements(liveHandles[..k + 1]) == done + {handle};
        SweepHandle(h, handle, marked, done);
        done := done + {handle};
      }
      assert liveHandles[..|liveHandles|] == liveHandles;
      assert forall g :: h.table.IsLive(g) ==> g in liveHandles;
    }

    // The locked part of `MajorCycle::finish`.
    method SweepUnmarked(roots: seq<StableHandle>, snapshotMarks: set<StableHandle>)
      requires Valid()
      modifies this, handles
      ensures Valid() && FinishSpec(old(View()), View(), Elements(roots), snapshotMarks)
    {
      ghost var h := View();
      var pins := Enumerate(hostPins.Keys);
      var barrier := Enumerate(concurrentBarrier);
      var current := roots + pins + barrier;
      assert Elements(current) == FinishSeeds(h, Elements(roots)) by {
        assert Elements(current) == Elements(roots) + Elements(pins) + Elements(barrier);
      }
      var marked := TraceCurrent(current);
      marked := marked + snapshotMarks;
      ghost var done := SweepLive(h, marked);
      marking := false;
      concurrentBarrier := {};
      remembered := remembered * handles.View().LiveSet();
      SweepEnd(h, Elements(roots), snapshotMarks, marked, done, handles.View(), live, oldSpace, remembered);
    }
  }

  // A major cycle between its two stops. The marker owns its copy of the
  // objects, so it may run at any time between start and finish.
  class MajorCycle {
    const heap: GcHeap
    const roots: seq<StableHandle>
    const snapshot: Graph
    const seed: seq<StableHandle>

    constructor Start(heap: GcHeap, roots: seq<StableHandle>)
      requires heap.Valid()
      modifies heap
      ensures this.heap == heap && this.roots == roots
      ensures heap.Valid() && heap.View() == MajorStarted(old(heap.View()))
      ensures snapshot == old(heap.View().Edges()) && Elements(seed) == Elements(roots) + old(heap.View().pins.Keys)
    {
      var pins := Enumerate(heap.hostPins.Keys);
      this.heap := heap;
      this.roots := roots;
      this.snapshot := heap.View().Edges();
      this.seed := roots + pins;
      new;
      heap.marking := true;
      heap.concurrentBarrier := {};
      assert Elements(roots + pins) == Elements(roots) + Elements(pins);
    }

    method Finish() returns (ghost marks: set<StableHandle>)
      requires heap.Valid()
      modifies heap, heap.handles
      ensures heap.Valid()
      ensures forall g :: g in marks <==> Reachable(snapshot, Elements(seed), g)
      ensures FinishSpec(old(heap.View()), heap.View(), Elements(roots), marks)
    {
      var snapshotMarks := MarkSnapshot(snapshot, seed);
      marks := snapshotMarks;
      heap.SweepUnmarked(roots, snapshotMarks);
    }

    // Dropping the cycle, after `Finish` or without it.
    method Drop()
      requires heap.Valid()
      modifies heap
      ensures heap.Valid() && heap.View() == MajorDropped(old(heap.View()))
    {
      heap.marking := false;
      heap.concurrentBarrier := {};
    }
  }
}
