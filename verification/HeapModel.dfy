/**
  The state of the adaptive heap as a value, its critical sections that touch
  one object as functions, and what a collection and a graph allocation may do
  as relations between the state before and the state after
  (src/adaptive_v2/heap.rs, heap/types.rs).
 */
module HeapModel {
  import opened MachineWords
  import opened Wrappers
  import opened Handles
  import opened Tracing

  const AGE_MAX: nat := 0xFF

  datatype ScalarValue = Integer(value: int) | FloatBits(bits: nat)

  datatype GcObject = GcObject(scalar: Option<ScalarValue>, references: seq<StableHandle>)

  datatype Location = Nursery(index: nat) | Old(index: nat)

  datatype NurseryCell = NurseryCell(obj: GcObject, age: nat)

  datatype GcError =
    | AllocationLimit
    | InvalidHandle(error: HandleError)
    | NotScalar
    | HostPinOverflow

  datatype GcConfig = GcConfig(collectEveryAllocation: bool, promotionAge: nat, allocationLimit: Option<nat>)

  // The object in the cell that a location names.
  function CellIn(nursery: seq<Option<NurseryCell>>, oldSpace: seq<Option<GcObject>>, l: Location): Option<GcObject> {
    match l
    case Nursery(i) => if i < |nursery| && nursery[i].Some? then Some(nursery[i].value.obj) else None
    case Old(i) => if i < |oldSpace| then oldSpace[i] else None
  }

  // Live handles name occupied cells, no two the same one.
  ghost predicate Mapped(table: Table<Location>, nursery: seq<Option<NurseryCell>>, oldSpace: seq<Option<GcObject>>) {
    && (forall h :: table.IsLive(h) ==> CellIn(nursery, oldSpace, table.At(h)).Some?)
    && (forall h, g :: table.IsLive(h) && table.IsLive(g) && table.At(h) == table.At(g) ==> h == g)
  }

  // Some live handle names the location.
  ghost predicate Named(table: Table<Location>, l: Location) {
    exists h :: table.IsLive(h) && table.At(h) == l
  }

  // Every occupied cell is named.
  ghost predicate Covered(table: Table<Location>, nursery: seq<Option<NurseryCell>>, oldSpace: seq<Option<GcObject>>) {
    && (forall i :: 0 <= i < |nursery| && nursery[i].Some? ==> Named(table, Nursery(i)))
    && (forall i :: 0 <= i < |oldSpace| && oldSpace[i].Some? ==> Named(table, Old(i)))
  }

  datatype Heap = Heap(
    table: Table<Location>,
    nursery: seq<Option<NurseryCell>>,
    oldSpace: seq<Option<GcObject>>,
    pins: map<StableHandle, nat>,
    remembered: set<StableHandle>,
    barrier: set<StableHandle>,
    marking: bool,
    live: nat)
  {
    function CellAt(l: Location): Option<GcObject> {
      CellIn(nursery, oldSpace, l)
    }

    function LiveSet(): set<StableHandle> {
      table.LiveSet()
    }

    predicate IsOld(h: StableHandle) {
      table.IsLive(h) && table.At(h).Old?
    }

    // What a handle means: the object it resolves to.
    function ObjectOf(h: StableHandle): GcObject {
      if table.IsLive(h) && CellAt(table.At(h)).Some? then CellAt(table.At(h)).value else GcObject(None, [])
    }

    // The number of minor collections a young handle has survived.
    function AgeOf(h: StableHandle): nat {
      if table.IsLive(h) && table.At(h).Nursery? && table.At(h).index < |nursery| && nursery[table.At(h).index].Some?
      then nursery[table.At(h).index].value.age
      else 0
    }

    function Edges(): Graph {
      map h | h in LiveSet() :: ObjectOf(h).references
    }

    // The heap invariant: live handles map one-to-one onto occupied cells, `live`
    // counts them, pinned handles are live and remembered ones are live and old.
    ghost predicate Valid() {
      && table.Valid()
      && Mapped(table, nursery, oldSpace)
      && Covered(table, nursery, oldSpace)
      && live == |LiveSet()|
      && pins.Keys <= LiveSet()
      && (forall h :: h in remembered ==> IsOld(h))
    }
  }

  // ------------------------------------------------------- single-object sections

  function ObjectAt(h: Heap, handle: StableHandle): Result<GcObject, GcError> {
    match h.table.Resolve(handle)
    case Err(error) => Err(InvalidHandle(error))
    case Ok(location) =>
      match h.CellAt(location)
      case Some(obj) => Ok(obj)
      case None => Err(InvalidHandle(Stale))
  }

  // The locked part of `allocate_with_roots`.
  function Placed(h: Heap, obj: GcObject, limit: Option<nat>): (Heap, Result<StableHandle, GcError>) {
    if limit.Some? && h.live >= limit.value then (h, Err(AllocationLimit))
    else
      match Allocated(h.table, Nursery(|h.nursery|))
      case (t, Err(error)) => (h.(table := t), Err(InvalidHandle(error)))
      case (t, Ok(handle)) =>
        (h.(table := t, nursery := h.nursery + [Some(NurseryCell(obj, 0))], live := h.live + 1), Ok(handle))
  }

  // The cell that a location names, with one reference appended.
  function Appended(h: Heap, l: Location, target: StableHandle): Heap
    requires h.CellAt(l).Some?
  {
    match l
    case Nursery(i) =>
      var cell := h.nursery[i].value;
      h.(nursery := h.nursery[i := Some(NurseryCell(GcObject(cell.obj.scalar, cell.obj.references + [target]), cell.age))])
    case Old(i) =>
      var obj := h.oldSpace[i].value;
      h.(oldSpace := h.oldSpace[i := Some(GcObject(obj.scalar, obj.references + [target]))])
  }

  function Stored(h: Heap, owner: StableHandle, target: StableHandle): (Heap, Result<(), GcError>) {
    match h.table.Resolve(owner)
    case Err(error) => (h, Err(InvalidHandle(error)))
    case Ok(ownerLocation) =>
      match h.table.Resolve(target)
      case Err(error) => (h, Err(InvalidHandle(error)))
      case Ok(targetLocation) =>
        if h.CellAt(ownerLocation).None? then (h, Err(InvalidHandle(Stale)))
        else
          var appended := Appended(h, ownerLocation, target);
          (appended.(
             remembered := if ownerLocation.Old? && targetLocation.Nursery? then h.remembered + {owner} else h.remembered,
             barrier := if h.marking then h.barrier + {target} else h.barrier), Ok(()))
  }

  function Pinned(h: Heap, handle: StableHandle): (Heap, Result<(), GcError>) {
    match h.table.Resolve(handle)
    case Err(error) => (h, Err(InvalidHandle(error)))
    case Ok(_) =>
      var count := if handle in h.pins then h.pins[handle] else 0;
      if count >= USIZE_MAX then (h.(pins := h.pins[handle := count]), Err(HostPinOverflow))
      else (h.(pins := h.pins[handle := count + 1]), Ok(()))
  }

  function Unpinned(h: Heap, handle: StableHandle): (Heap, Result<(), GcError>) {
    match h.table.Resolve(handle)
    case Err(error) => (h, Err(InvalidHandle(error)))
    case Ok(_) =>
      if handle !in h.pins then (h, Ok(()))
      else if h.pins[handle] > 1 then (h.(pins := h.pins[handle := h.pins[handle] - 1]), Ok(()))
      else (h.(pins := h.pins - {handle}), Ok(()))
  }

  // What no critical section ever does to the other objects of the heap.
  ghost predicate KeepsObjects(h: Heap, h': Heap, kept: set<StableHandle>) {
    forall g :: g in kept ==> h'.table.IsLive(g) && h'.ObjectOf(g) == h.ObjectOf(g)
  }

  ghost predicate KeepsSpent(h: Heap, h': Heap) {
    h'.table.runtime == h.table.runtime && forall g :: h.table.Spent(g) ==> h'.table.Spent(g)
  }

  // One more cell at the end of the nursery, named by one more handle.
  lemma OneMoreCell(
      t: Table<Location>, t': Table<Location>, nursery: seq<Option<NurseryCell>>, oldSpace: seq<Option<GcObject>>,
      cell: NurseryCell, added: StableHandle)
    requires Mapped(t, nursery, oldSpace) && Covered(t, nursery, oldSpace)
    requires forall g :: t'.IsLive(g) <==> t.IsLive(g) || g == added
    requires !t.IsLive(added) && t'.At(added) == Nursery(|nursery|)
    requires forall g :: t.IsLive(g) ==> t'.At(g) == t.At(g)
    ensures Mapped(t', nursery + [Some(cell)], oldSpace) && Covered(t', nursery + [Some(cell)], oldSpace)
  {
    assert Named(t', Nursery(|nursery|));
    forall l | Named(t, l) ensures Named(t', l) {
      var g :| t.IsLive(g) && t.At(g) == l;
      assert t'.IsLive(g) && t'.At(g) == l;
    }
  }

  lemma PlacedValid(h: Heap, obj: GcObject, limit: Option<nat>)
    requires h.Valid()
    ensures Placed(h, obj, limit).0.Valid()
  {
    AllocateCorrect(h.table, Nursery(|h.nursery|));
    if Placed(h, obj, limit).1.Ok? {
      var (t', r) := Allocated(h.table, Nursery(|h.nursery|));
      OneMoreCell(h.table, t', h.nursery, h.oldSpace, NurseryCell(obj, 0), r.value);
    }
  }

  // Allocation in the heap succeeds exactly below the limit and with room in the
  // table; a failed one changes nothing, a successful one issues a handle that
  // was never issued before.
  lemma PlacedHandle(h: Heap, obj: GcObject, limit: Option<nat>)
    requires h.Valid()
    ensures var (h', r) := Placed(h, obj, limit);
      && (r.Ok? <==> (limit.Some? ==> h.live < limit.value) && HasRoom(h.table))
      && (r.Err? ==> h' == h)
      && (r.Ok? ==>
            && KeepsSpent(h, h') && !h.table.Spent(r.value)
            && (forall g :: h'.table.IsLive(g) <==> h.table.IsLive(g) || g == r.value)
            && (forall g :: h.table.IsLive(g) ==> h'.table.At(g) == h.table.At(g))
            && h' == h.(table := h'.table, nursery := h'.nursery, live := h.live + 1))
  {
    AllocateCorrect(h.table, Nursery(|h.nursery|));
  }

  // The new handle names the new object, which is young; every other handle
  // still names the object it named.
  lemma PlacedObjects(h: Heap, obj: GcObject, limit: Option<nat>)
    requires h.Valid() && Placed(h, obj, limit).1.Ok?
    ensures var (h', r) := Placed(h, obj, limit);
      && KeepsObjects(h, h', h.LiveSet())
      && h'.ObjectOf(r.value) == obj
      && !h'.IsOld(r.value) && h'.AgeOf(r.value) == 0
      && (forall g :: h.table.IsLive(g) ==> h'.AgeOf(g) == h.AgeOf(g))
  {
    hide Table.Valid, Allocated, Covered;
    AllocateCorrect(h.table, Nursery(|h.nursery|));
  }

  lemma AppendedValid(h: Heap, owner: StableHandle, target: StableHandle)
    requires h.Valid() && h.table.IsLive(owner)
    ensures var h' := Appended(h, h.table.At(owner), target);
      h'.Valid() && h' == h.(nursery := h'.nursery, oldSpace := h'.oldSpace)
  {
    var h' := Appended(h, h.table.At(owner), target);
    forall l: Location ensures h'.CellAt(l).Some? <==> h.CellAt(l).Some? {}
    assert Covered(h'.table, h'.nursery, h'.oldSpace);
  }

  lemma AppendedObjects(h: Heap, owner: StableHandle, target: StableHandle)
    requires h.Valid() && h.table.IsLive(owner)
    ensures var h' := Appended(h, h.table.At(owner), target);
      && KeepsObjects(h, h', h.LiveSet() - {owner})
      && h'.ObjectOf(owner) == GcObject(h.ObjectOf(owner).scalar, h.ObjectOf(owner).references + [target])
  {
    var h' := Appended(h, h.table.At(owner), target);
    forall g | h.table.IsLive(g) && g != owner ensures h'.CellAt(h.table.At(g)) == h.CellAt(h.table.At(g)) {
      assert h.table.At(g) != h.table.At(owner);
    }
  }

  lemma StoredValid(h: Heap, owner: StableHandle, target: StableHandle)
    requires h.Valid()
    ensures Stored(h, owner, target).0.Valid()
  {
    ResolveIsLive(h.table, owner);
    ResolveIsLive(h.table, target);
    if h.table.IsLive(owner) && h.table.IsLive(target) {
      AppendedValid(h, owner, target);
    }
  }

  // A store succeeds exactly between live handles; it appends one reference to
  // the owner, remembers an old owner of a young target, feeds the barrier while
  // a major cycle is marking, and touches nothing else.
  lemma StoredCorrect(h: Heap, owner: StableHandle, target: StableHandle)
    requires h.Valid()
    ensures var (h', r) := Stored(h, owner, target);
      && (r.Ok? <==> h.table.IsLive(owner) && h.table.IsLive(target))
      && (r.Err? ==> h' == h)
      && KeepsObjects(h, h', h.LiveSet() - {owner})
      && h'.table == h.table && h'.pins == h.pins && h'.marking == h.marking && h'.live == h.live
      && (r.Ok? ==>
            && h'.ObjectOf(owner) == GcObject(h.ObjectOf(owner).scalar, h.ObjectOf(owner).references + [target])
            && h'.barrier == (if h.marking then h.barrier + {target} else h.barrier)
            && h'.remembered == (if h.IsOld(owner) && !h.IsOld(target) then h.remembered + {owner} else h.remembered))
  {
    ResolveIsLive(h.table, owner);
    ResolveIsLive(h.table, target);
    if h.table.IsLive(owner) && h.table.IsLive(target) {
      AppendedObjects(h, owner, target);
    }
  }

  lemma PinsValid(h: Heap, pins: map<StableHandle, nat>)
    requires h.Valid() && pins.Keys <= h.LiveSet()
    ensures h.(pins := pins).Valid()
  {
  }

  lemma PinnedValid(h: Heap, handle: StableHandle)
    requires h.Valid()
    ensures Pinned(h, handle).0.Valid()
  {
    ResolveIsLive(h.table, handle);
    PinsValid(h, Pinned(h, handle).0.pins);
  }

  // Only live handles can be pinned, and each pin counts one.
  lemma PinnedCorrect(h: Heap, handle: StableHandle)
    ensures var (h', r) := Pinned(h, handle);
      && h' == h.(pins := h'.pins)
      && (!h.table.IsLive(handle) ==> r.Err? && h' == h)
      && (h.table.IsLive(handle) ==> h'.pins.Keys == h.pins.Keys + {handle})
      && (r.Ok? <==> h.table.IsLive(handle) && (handle in h.pins ==> h.pins[handle] < USIZE_MAX))
      && (r.Ok? ==> h'.pins == h.pins[handle := 1 + if handle in h.pins then h.pins[handle] else 0])
  {
    ResolveIsLive(h.table, handle);
  }

  lemma UnpinnedValid(h: Heap, handle: StableHandle)
    requires h.Valid()
    ensures Unpinned(h, handle).0.Valid()
  {
    PinsValid(h, Unpinned(h, handle).0.pins);
  }

  // Unpinning undoes one pin: only the last unpin forgets the handle.
  lemma UnpinnedCorrect(h: Heap, handle: StableHandle)
    ensures var (h', r) := Unpinned(h, handle);
      && h' == h.(pins := h'.pins)
      && (r.Ok? <==> h.table.IsLive(handle))
      && (r.Ok? && handle in h.pins && h.pins[handle] > 1 ==> h'.pins == h.pins[handle := h.pins[handle] - 1])
      && (r.Ok? && handle in h.pins && h.pins[handle] <= 1 ==> h'.pins == h.pins - {handle})
      && (r.Err? || handle !in h.pins ==> h' == h)
  {
    ResolveIsLive(h.table, handle);
  }

  // A pin followed by an unpin leaves the heap as it was.
  lemma UnpinUndoesPin(h: Heap, handle: StableHandle)
    requires Pinned(h, handle).1.Ok? && (handle in h.pins ==> h.pins[handle] >= 1)
    ensures Unpinned(Pinned(h, handle).0, handle) == (h, Ok(()))
  {
    ResolveIsLive(h.table, handle);
    if handle in h.pins {
      assert h.pins[handle := h.pins[handle] + 1][handle := h.pins[handle]] == h.pins;
    } else {
      assert h.pins[handle := 1] - {handle} == h.pins;
    }
  }

  // ------------------------------------------------------------ minor collection

  ghost function MinorSeeds(h: Heap, roots: set<StableHandle>): set<StableHandle> {
    roots + h.pins.Keys + h.remembered
  }

  function AgedBy(age: nat): nat {
    if age < AGE_MAX then age + 1 else AGE_MAX
  }

  // A minor collection releases exactly the young handles that the roots, the
  // pins and the remembered owners do not reach; every other handle keeps its
  // object, old ones also their place, and young survivors age by one until
  // they are promoted.
  ghost predicate MinorSpec(h: Heap, h': Heap, roots: set<StableHandle>, promotionAge: nat) {
    && h'.Valid() && KeepsSpent(h, h')
    && (forall g :: h'.table.IsLive(g) <==>
          h.table.IsLive(g) && (h.IsOld(g) || Reachable(h.Edges(), MinorSeeds(h, roots), g)))
    && KeepsObjects(h, h', h'.LiveSet())
    && (forall g :: h.IsOld(g) ==> h'.table.IsLive(g) && h'.table.At(g) == h.table.At(g))
    && (forall g :: h'.table.IsLive(g) && !h.IsOld(g) ==>
          var age := AgedBy(h.AgeOf(g));
          if age >= promotionAge then h'.IsOld(g)
          else !h'.IsOld(g) && h'.AgeOf(g) == age)
    && h'.pins == h.pins && h'.remembered == h.remembered && h'.barrier == h.barrier && h'.marking == h.marking
  }

  // ------------------------------------------------------------ major collection

  ghost function FinishSeeds(h: Heap, roots: set<StableHandle>): set<StableHandle> {
    roots + h.pins.Keys + h.barrier
  }

  function MajorStarted(h: Heap): Heap {
    h.(marking := true, barrier := {})
  }

  function MajorDropped(h: Heap): Heap {
    h.(marking := false, barrier := {})
  }

  // Finishing a major cycle releases exactly the old handles that neither the
  // snapshot marks nor a trace of the current heap hold, and moves nothing.
  ghost predicate FinishSpec(h: Heap, h': Heap, roots: set<StableHandle>, marks: set<StableHandle>) {
    && h'.Valid() && KeepsSpent(h, h')
    && (forall g :: h'.table.IsLive(g) <==>
          h.table.IsLive(g) && (!h.IsOld(g) || g in marks || Reachable(h.Edges(), FinishSeeds(h, roots), g)))
    && KeepsObjects(h, h', h'.LiveSet())
    && (forall g :: h'.table.IsLive(g) ==> h'.table.At(g) == h.table.At(g))
    && h'.nursery == h.nursery && h'.pins == h.pins
    && h'.remembered == h.remembered * h'.LiveSet()
    && h'.barrier == {} && !h'.marking
  }

  // ------------------------------------------------------------ graph allocation

  datatype BatchReference = Object(index: nat) | External(handle: StableHandle)

  type Batch = seq<seq<BatchReference>>

  predicate ReferenceAccepted(h: Heap, n: nat, reference: BatchReference) {
    match reference
    case Object(i) => i < n
    case External(handle) => h.table.IsLive(handle)
  }

  predicate GraphAccepted(h: Heap, batch: Batch, limit: Option<nat>) {
    && (limit.Some? ==> h.live + |batch| <= limit.value)
    && h.table.RemainingCapacity() >= |batch|
    && forall i, j :: 0 <= i < |batch| && 0 <= j < |batch[i]| ==> ReferenceAccepted(h, |batch|, batch[i][j])
  }

  function Target(reference: BatchReference, handles: seq<StableHandle>): StableHandle {
    match reference
    case Object(i) => if i < |handles| then handles[i] else StableHandle(0, 0, 0)
    case External(handle) => handle
  }

  function Targets(references: seq<BatchReference>, handles: seq<StableHandle>): seq<StableHandle> {
    seq(|references|, i requires 0 <= i < |references| => Target(references[i], handles))
  }

  ghost predicate Fresh(h: Heap, handles: seq<StableHandle>) {
    && (forall i, j :: 0 <= i < j < |handles| ==> handles[i] != handles[j])
    && (forall i :: 0 <= i < |handles| ==> !h.table.Spent(handles[i]))
  }

  // A graph allocation is all or nothing: it fails and changes nothing, or it
  // adds one new young object per request, holding exactly the requested edges.
  ghost predicate GraphSpec(h: Heap, h': Heap, batch: Batch, limit: Option<nat>, r: Result<seq<StableHandle>, GcError>) {
    && (r.Ok? <==> GraphAccepted(h, batch, limit))
    && (r.Err? ==> h' == h)
    && (r.Ok? ==>
          && |r.value| == |batch| && Fresh(h, r.value)
          && h'.Valid() && KeepsSpent(h, h')
          && (forall g :: h'.table.IsLive(g) <==> h.table.IsLive(g) || g in r.value)
          && KeepsObjects(h, h', h.LiveSet())
          && (forall g :: h.table.IsLive(g) ==> h'.table.At(g) == h.table.At(g) && h'.AgeOf(g) == h.AgeOf(g))
          && (forall i :: 0 <= i < |batch| ==>
                && h'.ObjectOf(r.value[i]) == GcObject(None, Targets(batch[i], r.value))
                && !h'.IsOld(r.value[i]) && h'.AgeOf(r.value[i]) == 0)
          && h' == h.(table := h'.table, nursery := h'.nursery, live := h.live + |batch|))
  }
}
