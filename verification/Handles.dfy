/**
  The generational handle table (src/adaptive_v2/handles.rs).

  `Table` is the value a table holds at one moment, with `Allocated`, `Released`
  and `Relocated` as functions on it; `StableHandleTable` is the object that is
  updated in place, every method of which is tied to one of these functions.
  The main results are about whole runs of allocations and releases.
 */
module Handles {
  import opened Wrappers

  // Slots are u32 and generations are u16 in the source.
  const SLOT_LIMIT: nat := 0x1_0000_0000
  const MAX_GENERATION: nat := 0xFFFF

  datatype StableHandle = StableHandle(runtime: nat, slot: nat, generation: nat)

  datatype HandleError = Capacity | WrongRuntime | Stale

  datatype Entry<+T> =
    | Vacant(generation: nat)
    | Live(generation: nat, value: T)
    | Retired

  datatype Table<T> = Table(
    runtime: nat,
    capacity: nat,
    entries: seq<Entry<T>>,
    free: seq<nat>,
    retired: nat)
  {
    function VacantSlots(): set<nat> {
      set s | 0 <= s < |entries| && entries[s].Vacant?
    }

    function RetiredSlots(): set<nat> {
      set s | 0 <= s < |entries| && entries[s].Retired?
    }

    function LiveSlots(): set<nat> {
      set s | 0 <= s < |entries| && entries[s].Live?
    }

    // The handle that names the live entry of a slot.
    function HandleAt(s: nat): StableHandle
      requires s < |entries| && entries[s].Live?
    {
      StableHandle(runtime, s, entries[s].generation)
    }

    // The table invariant: the free list enumerates exactly the vacant slots.
    ghost predicate Valid() {
      && |entries| <= capacity && |entries| <= SLOT_LIMIT
      && (forall i, j :: 0 <= i < j < |free| ==> free[i] != free[j])
      && (forall s :: s in free <==> s in VacantSlots())
      && retired == |RetiredSlots()|
      && (forall s :: 0 <= s < |entries| && !entries[s].Retired? ==> 1 <= entries[s].generation <= MAX_GENERATION)
    }

    function Validate(h: StableHandle): Result<nat, HandleError> {
      if h.runtime != runtime then Err(WrongRuntime)
      else if h.slot < |entries| && entries[h.slot].Live? && entries[h.slot].generation == h.generation then Ok(h.slot)
      else Err(Stale)
    }

    function Resolve(h: StableHandle): Result<T, HandleError> {
      match Validate(h)
      case Err(error) => Err(error)
      case Ok(index) => if entries[index].Live? then Ok(entries[index].value) else Err(Stale)
    }

    predicate IsLive(h: StableHandle) {
      h.runtime == runtime && h.slot < |entries| && entries[h.slot].Live? && entries[h.slot].generation == h.generation
    }

    function At(h: StableHandle): T
      requires IsLive(h)
    {
      entries[h.slot].value
    }

    function LiveSet(): (hs: set<StableHandle>)
      ensures forall h :: h in hs <==> IsLive(h)
    {
      var hs := set s | 0 <= s < |entries| && entries[s].Live? :: HandleAt(s);
      assert forall h :: IsLive(h) ==> h == HandleAt(h.slot);
      hs
    }

    // A spent handle has been issued by this table at some time.
    predicate Spent(h: StableHandle) {
      && h.runtime == runtime
      && h.slot < |entries|
      && match entries[h.slot]
         case Vacant(g) => h.generation < g
         case Live(g, _) => h.generation <= g
         case Retired => true
    }

    function RemainingCapacity(): nat {
      |free| + if |entries| <= capacity then capacity - |entries| else 0
    }

    // The allocations that can still be served: slot numbers are limited too.
    function Room(): nat {
      |free| + if |entries| <= capacity && |entries| <= SLOT_LIMIT then
          (if capacity <= SLOT_LIMIT then capacity else SLOT_LIMIT) - |entries|
        else 0
    }

    // Live handles in slot order, as the iterator of the source yields them.
    function LiveHandlesUpTo(n: nat): (hs: seq<StableHandle>)
      requires n <= |entries|
      ensures forall h :: h in hs <==> IsLive(h) && h.slot < n
      ensures forall i, j :: 0 <= i < j < |hs| ==> hs[i] != hs[j]
    {
      if n == 0 then []
      else
        var before := LiveHandlesUpTo(n - 1);
        assert forall h :: IsLive(h) && h.slot == n - 1 ==> h == HandleAt(n - 1);
        if entries[n - 1].Live? then before + [HandleAt(n - 1)] else before
    }

    function LiveHandles(): seq<StableHandle> {
      LiveHandlesUpTo(|entries|)
    }
  }

  function Empty<T>(runtime: nat, capacity: nat): Table<T> {
    Table(runtime, capacity, [], [], 0)
  }

  function Allocated<T>(t: Table<T>, value: T): (Table<T>, Result<StableHandle, HandleError>) {
    if |t.free| > 0 then
      var slot := t.free[|t.free| - 1];
      var popped := t.(free := t.free[..|t.free| - 1]);
      if slot < |t.entries| && t.entries[slot].Vacant? then
        var generation := t.entries[slot].generation;
        (popped.(entries := t.entries[slot := Live(generation, value)]), Ok(StableHandle(t.runtime, slot, generation)))
      else
        (popped, Err(Stale))
    else if |t.entries| < t.capacity then
      if |t.entries| < SLOT_LIMIT then
        (t.(entries := t.entries + [Live(1, value)]), Ok(StableHandle(t.runtime, |t.entries|, 1)))
      else
        (t, Err(Capacity))
    else
      (t, Err(Capacity))
  }

  function Released<T>(t: Table<T>, h: StableHandle): (Table<T>, Result<T, HandleError>) {
    match t.Validate(h)
    case Err(error) => (t, Err(error))
    case Ok(index) =>
      var value := t.entries[index].value;
      if t.entries[index].generation == MAX_GENERATION then
        (t.(entries := t.entries[index := Retired], retired := t.retired + 1), Ok(value))
      else
        (t.(entries := t.entries[index := Vacant(t.entries[index].generation + 1)], free := t.free + [h.slot]), Ok(value))
  }

  // Assignment through `resolve_mut`.
  function Relocated<T>(t: Table<T>, h: StableHandle, value: T): (Table<T>, Result<(), HandleError>) {
    match t.Validate(h)
    case Err(error) => (t, Err(error))
    case Ok(index) => (t.(entries := t.entries[index := Live(t.entries[index].generation, value)]), Ok(()))
  }

  // ------------------------------------------------------------------ one step

  // Whether an allocation can be served.
  predicate HasRoom<T>(t: Table<T>) {
    |t.free| > 0 || (|t.entries| < t.capacity && |t.entries| < SLOT_LIMIT)
  }

  lemma AllocatedValid<T>(t: Table<T>, value: T)
    requires t.Valid()
    ensures Allocated(t, value).0.Valid()
  {
    var (t', r) := Allocated(t, value);
    if |t.free| > 0 {
      var slot := t.free[|t.free| - 1];
      assert slot in t.VacantSlots();
      assert t'.VacantSlots() == t.VacantSlots() - {slot};
      assert t'.RetiredSlots() == t.RetiredSlots();
      assert forall s :: s in t'.free <==> s in t.free && s != slot;
    } else if r.Ok? {
      assert t'.VacantSlots() == t.VacantSlots();
      assert t'.RetiredSlots() == t.RetiredSlots();
    }
  }

  lemma AllocatedHandle<T>(t: Table<T>, value: T)
    requires t.Valid()
    ensures var (t', r) := Allocated(t, value);
      && t'.runtime == t.runtime && t'.capacity == t.capacity && t'.retired == t.retired
      && (r.Ok? <==> HasRoom(t))
      && (r.Err? ==> t' == t && r.error == Capacity)
      && (r.Ok? ==>
            && !t.Spent(r.value) && t'.Spent(r.value)
            && t'.IsLive(r.value) && t'.At(r.value) == value
            && t'.RemainingCapacity() == t.RemainingCapacity() - 1 && t'.Room() == t.Room() - 1)
  {
    if |t.free| > 0 {
      assert t.free[|t.free| - 1] in t.VacantSlots();
    }
  }

  lemma AllocatedOthers<T>(t: Table<T>, value: T)
    requires t.Valid() && Allocated(t, value).1.Ok?
    ensures var (t', r) := Allocated(t, value);
      && (forall g :: t'.IsLive(g) <==> t.IsLive(g) || g == r.value)
      && (forall g :: t.IsLive(g) ==> t'.At(g) == t.At(g))
      && (forall g :: t.Spent(g) ==> t'.Spent(g))
  {
    if |t.free| > 0 {
      assert t.free[|t.free| - 1] in t.VacantSlots();
    }
  }

  // Allocation succeeds exactly when there is room; the handle was never issued
  // before, names the value, and no other handle changes its meaning.
  lemma AllocateCorrect<T>(t: Table<T>, value: T)
    requires t.Valid()
    ensures var (t', r) := Allocated(t, value);
      && t'.Valid()
      && t'.runtime == t.runtime && t'.capacity == t.capacity && t'.retired == t.retired
      && (r.Ok? <==> HasRoom(t))
      && (r.Err? ==> t' == t && r.error == Capacity)
      && (r.Ok? ==>
            && !t.Spent(r.value) && t'.Spent(r.value)
            && (forall g :: t'.IsLive(g) <==> t.IsLive(g) || g == r.value) && t'.At(r.value) == value
            && |t'.LiveSet()| == |t.LiveSet()| + 1
            && (forall g :: t.IsLive(g) ==> t'.At(g) == t.At(g))
            && t'.RemainingCapacity() == t.RemainingCapacity() - 1 && t'.Room() == t.Room() - 1)
      && (forall g :: t.Spent(g) ==> t'.Spent(g))
  {
    var (t', r) := Allocated(t, value);
    AllocatedValid(t, value);
    AllocatedHandle(t, value);
    if r.Ok? {
      AllocatedOthers(t, value);
      assert t'.LiveSet() == t.LiveSet() + {r.value};
    }
  }

  // The slot of a handle of the last generation is never used again.
  lemma ReleasedRetires<T>(t: Table<T>, h: StableHandle)
    requires t.Valid() && Released(t, h).1.Ok? && t.entries[h.slot].generation == MAX_GENERATION
    ensures Released(t, h).0.Valid()
    ensures Released(t, h).0.retired == t.retired + 1 && Released(t, h).0.RemainingCapacity() == t.RemainingCapacity()
  {
    var t' := Released(t, h).0;
    assert h.slot !in t.free by { assert h.slot !in t.VacantSlots(); }
    assert t'.RetiredSlots() == t.RetiredSlots() + {h.slot};
    assert t'.VacantSlots() == t.VacantSlots() && t'.free == t.free;
  }

  // Any other slot is free again.
  lemma ReleasedFrees<T>(t: Table<T>, h: StableHandle)
    requires t.Valid() && Released(t, h).1.Ok? && t.entries[h.slot].generation != MAX_GENERATION
    ensures Released(t, h).0.Valid()
    ensures Released(t, h).0.retired == t.retired && Released(t, h).0.RemainingCapacity() == t.RemainingCapacity() + 1
  {
    var t' := Released(t, h).0;
    assert h.slot !in t.free by { assert h.slot !in t.VacantSlots(); }
    assert t'.RetiredSlots() == t.RetiredSlots();
    assert t'.VacantSlots() == t.VacantSlots() + {h.slot};
    assert forall s :: s in t'.free <==> s in t.free || s == h.slot;
  }

  lemma ReleasedValid<T>(t: Table<T>, h: StableHandle)
    requires t.Valid()
    ensures Released(t, h).0.Valid()
    ensures var (t', r) := Released(t, h);
      r.Ok? ==> t'.RemainingCapacity() + t'.retired == t.RemainingCapacity() + t.retired + 1
  {
    if Released(t, h).1.Ok? {
      if t.entries[h.slot].generation == MAX_GENERATION {
        ReleasedRetires(t, h);
      } else {
        ReleasedFrees(t, h);
      }
    }
  }

  lemma ReleasedOthers<T>(t: Table<T>, h: StableHandle)
    ensures var (t', r) := Released(t, h);
      && t'.runtime == t.runtime && t'.capacity == t.capacity
      && (r.Ok? <==> t.IsLive(h))
      && (r.Err? ==> t' == t)
      && (r.Ok? ==>
            && r.value == t.At(h)
            && (forall g :: t'.IsLive(g) <==> t.IsLive(g) && g != h)
            && (forall g :: t'.IsLive(g) ==> t'.At(g) == t.At(g)))
      && (forall g :: t.Spent(g) ==> t'.Spent(g))
  {
  }

  // Release succeeds exactly on live handles; the handle stops resolving, stays
  // spent, and its slot either becomes reusable or is retired for good.
  lemma ReleaseCorrect<T>(t: Table<T>, h: StableHandle)
    requires t.Valid()
    ensures var (t', r) := Released(t, h);
      && t'.Valid()
      && t'.runtime == t.runtime && t'.capacity == t.capacity
      && (r.Ok? <==> t.IsLive(h))
      && (r.Err? ==> t' == t)
      && (r.Ok? ==>
            && r.value == t.At(h)
            && (forall g :: t'.IsLive(g) <==> t.IsLive(g) && g != h)
            && |t'.LiveSet()| == |t.LiveSet()| - 1
            && (forall g :: t'.IsLive(g) ==> t'.At(g) == t.At(g))
            && t'.RemainingCapacity() + t'.retired == t.RemainingCapacity() + t.retired + 1)
      && (forall g :: t.Spent(g) ==> t'.Spent(g))
  {
    var (t', r) := Released(t, h);
    ReleasedValid(t, h);
    ReleasedOthers(t, h);
    if r.Ok? {
      assert t'.LiveSet() == t.LiveSet() - {h};
    }
  }

  lemma RelocatedOthers<T>(t: Table<T>, h: StableHandle, value: T)
    requires t.IsLive(h)
    ensures var (t', r) := Relocated(t, h, value);
      && r.Ok?
      && t'.runtime == t.runtime && t'.capacity == t.capacity && t'.retired == t.retired && t'.free == t.free
      && (forall g :: t'.IsLive(g) <==> t.IsLive(g))
      && t'.At(h) == value
      && (forall g :: t.IsLive(g) && g != h ==> t'.At(g) == t.At(g))
      && (forall g :: t.Spent(g) <==> t'.Spent(g))
  {
  }

  // Relocation changes what one live handle means and nothing else; any other handle is
  // refused.
  lemma RelocateCorrect<T>(t: Table<T>, h: StableHandle, value: T)
    requires t.Valid()
    ensures var (t', r) := Relocated(t, h, value);
      && t'.Valid() && (r.Ok? <==> t.IsLive(h)) && (r.Err? ==> t' == t)
      && t'.runtime == t.runtime && t'.capacity == t.capacity && t'.retired == t.retired && t'.free == t.free
      && (forall g :: t'.IsLive(g) <==> t.IsLive(g))
      && (r.Ok? ==> t'.At(h) == value)
      && (forall g :: t.IsLive(g) && g != h ==> t'.At(g) == t.At(g))
      && (forall g :: t.Spent(g) <==> t'.Spent(g))
  {
    if t.IsLive(h) {
      var (t', _) := Relocated(t, h, value);
      RelocatedOthers(t, h, value);
      assert t'.VacantSlots() == t.VacantSlots();
      assert t'.RetiredSlots() == t.RetiredSlots();
    }
  }

  // A resolved handle is exactly a live one.
  lemma ResolveIsLive<T>(t: Table<T>, h: StableHandle)
    ensures t.Resolve(h).Ok? <==> t.IsLive(h)
    ensures t.IsLive(h) ==> t.Resolve(h) == Ok(t.At(h)) && t.Spent(h)
    ensures !t.IsLive(h) ==> t.Resolve(h) == Err(if h.runtime != t.runtime then WrongRuntime else Stale)
  {
  }

  // -------------------------------------------------------------- conservation

  lemma DistinctLength(s: seq<nat>, elems: set<nat>)
    requires forall i, j :: 0 <= i < j < |s| ==> s[i] != s[j]
    requires forall x :: x in s <==> x in elems
    ensures |s| == |elems|
  {
    if s == [] {
      assert elems == {};
    } else {
      var last := s[|s| - 1];
      assert last in elems;
      forall x ensures x in s[..|s| - 1] <==> x in elems - {last} {
        if x in s && x != last {
          var i :| 0 <= i < |s| && s[i] == x;
          assert i < |s| - 1 && s[..|s| - 1][i] == x;
        }
      }
      DistinctLength(s[..|s| - 1], elems - {last});
    }
  }

  lemma RangeSize(n: nat, range: set<nat>)
    requires forall s :: s in range <==> 0 <= s < n
    ensures |range| == n
  {
    if n == 0 {
      assert range == {};
    } else {
      RangeSize(n - 1, range - {n - 1});
    }
  }

  lemma ImageSize<T>(t: Table<T>, slots: set<nat>, handles: set<StableHandle>)
    requires slots <= t.LiveSlots()
    requires handles == set s | s in slots :: t.HandleAt(s)
    ensures |handles| == |slots|
  {
    if slots == {} {
      assert handles == {};
    } else {
      var s :| s in slots;
      assert handles - {t.HandleAt(s)} == set x | x in slots - {s} :: t.HandleAt(x);
      ImageSize(t, slots - {s}, handles - {t.HandleAt(s)});
    }
  }

  // No slot is ever lost or counted twice.
  lemma {:induction false} Conservation<T>(t: Table<T>)
    requires t.Valid()
    ensures |t.LiveSet()| + t.retired + t.RemainingCapacity() == t.capacity
  {
    var range := t.LiveSlots() + t.VacantSlots() + t.RetiredSlots();
    RangeSize(|t.entries|, range);
    DistinctLength(t.free, t.VacantSlots());
    assert t.LiveSet() == set s | s in t.LiveSlots() :: t.HandleAt(s);
    ImageSize(t, t.LiveSlots(), t.LiveSet());
    assert t.LiveSlots() !! t.VacantSlots();
    assert (t.LiveSlots() + t.VacantSlots()) !! t.RetiredSlots();
  }

  // What decides is the room, which is the remaining capacity exactly up to 2^32 slots.
  lemma RoomIsRemaining<T>(t: Table<T>)
    requires t.Valid()
    ensures HasRoom(t) <==> t.Room() > 0
    ensures t.Room() == t.RemainingCapacity() <==> t.capacity <= SLOT_LIMIT
  {
  }

  // In a larger table the two part exactly when all slot numbers are taken and none
  // is free: capacity is then reported that no allocation can use.
  lemma RemainingMisleadsExactly<T>(t: Table<T>)
    requires t.Valid()
    ensures (HasRoom(t) <==> t.RemainingCapacity() > 0) <==> !(t.free == [] && |t.entries| == SLOT_LIMIT < t.capacity)
  {
  }

  // Such a table: one slot more than there are numbers, every number in use.
  lemma MisleadingTable<T>(runtime: nat, value: T) returns (t: Table<T>)
    ensures t.Valid() && t.free == [] && |t.entries| == SLOT_LIMIT < t.capacity
    ensures !HasRoom(t) && t.RemainingCapacity() == 1
  {
    t := Table(runtime, SLOT_LIMIT + 1, seq(SLOT_LIMIT, _ => Live(1, value)), [], 0);
    assert t.VacantSlots() == {} && t.RetiredSlots() == {};
  }

  // ---------------------------------------------------------------- whole runs

  datatype Operation<T> = DoAllocate(value: T) | DoRelease(handle: StableHandle)

  function Apply<T>(t: Table<T>, op: Operation<T>): Table<T> {
    match op
    case DoAllocate(value) => Allocated(t, value).0
    case DoRelease(h) => Released(t, h).0
  }

  function Run<T>(t: Table<T>, ops: seq<Operation<T>>): Table<T>
    decreases |ops|
  {
    if ops == [] then t else Run(Apply(t, ops[0]), ops[1..])
  }

  // The handles that the allocations of a run return, in order.
  function Issued<T>(t: Table<T>, ops: seq<Operation<T>>): seq<StableHandle>
    decreases |ops|
  {
    if ops == [] then []
    else
      (if ops[0].DoAllocate? && Allocated(t, ops[0].value).1.Ok? then [Allocated(t, ops[0].value).1.value] else [])
      + Issued(Apply(t, ops[0]), ops[1..])
  }

  lemma ApplyKeeps<T>(t: Table<T>, op: Operation<T>)
    requires t.Valid()
    ensures Apply(t, op).Valid() && Apply(t, op).capacity == t.capacity && Apply(t, op).runtime == t.runtime
    ensures forall g :: t.Spent(g) ==> Apply(t, op).Spent(g)
    ensures forall g :: t.Spent(g) && !t.IsLive(g) ==> !Apply(t, op).IsLive(g)
  {
    match op
    case DoAllocate(value) => AllocateCorrect(t, value);
    case DoRelease(h) => ReleaseCorrect(t, h);
  }

  // Over any run: the invariant holds at the end, no slot is lost, a handle
  // that was issued and is dead never resolves again.
  lemma {:induction false} RunKeeps<T>(t: Table<T>, ops: seq<Operation<T>>)
    requires t.Valid()
    ensures var t' := Run(t, ops);
      && t'.Valid() && t'.capacity == t.capacity
      && |t'.LiveSet()| + t'.retired + t'.RemainingCapacity() == t.capacity
      && (forall g :: t.Spent(g) ==> t'.Spent(g))
      && (forall g :: t.Spent(g) && !t.IsLive(g) ==> t'.Resolve(g).Err?)
    decreases |ops|
  {
    if ops == [] {
      Conservation(t);
    } else {
      ApplyKeeps(t, ops[0]);
      RunKeeps(Apply(t, ops[0]), ops[1..]);
    }
  }

  // Over any run no handle is issued twice, nor one that was spent before.
  lemma {:induction false} IssuedOnce<T>(t: Table<T>, ops: seq<Operation<T>>)
    requires t.Valid()
    ensures var hs := Issued(t, ops);
      && (forall i, j :: 0 <= i < j < |hs| ==> hs[i] != hs[j])
      && (forall i :: 0 <= i < |hs| ==> !t.Spent(hs[i]))
    decreases |ops|
  {
    if ops != [] {
      var t' := Apply(t, ops[0]);
      ApplyKeeps(t, ops[0]);
      IssuedOnce(t', ops[1..]);
      if ops[0].DoAllocate? && Allocated(t, ops[0].value).1.Ok? {
        AllocateCorrect(t, ops[0].value);
        var first := Allocated(t, ops[0].value).1.value;
        assert Issued(t, ops) == [first] + Issued(t', ops[1..]);
        assert t'.Spent(first);
      } else {
        assert Issued(t, ops) == Issued(t', ops[1..]);
      }
    }
  }

  // A handle released at any moment of a run never resolves at any later one.
  lemma ReleasedNeverResolves<T>(t: Table<T>, h: StableHandle, later: seq<Operation<T>>)
    requires t.Valid() && t.IsLive(h)
    ensures Run(Released(t, h).0, later).Resolve(h).Err?
  {
    ReleaseCorrect(t, h);
    RunKeeps(Released(t, h).0, later);
  }

  // ------------------------------------------------------- the table in place

  class StableHandleTable<T> {
    const runtime: nat
    const capacity: nat
    var entries: seq<Entry<T>>
    var free: seq<nat>
    var retired: nat

    function View(): Table<T>
      reads this
    {
      Table(runtime, capacity, entries, free, retired)
    }

    constructor (runtime: nat, capacity: nat)
      ensures View() == Empty(runtime, capacity) && View().Valid()
    {
      this.runtime := runtime;
      this.capacity := capacity;
      entries, free, retired := [], [], 0;
    }

    method Allocate(value: T) returns (r: Result<StableHandle, HandleError>)
      requires View().Valid()
      modifies this
      ensures (View(), r) == Allocated(old(View()), value)
      ensures View().Valid()
    {
      AllocateCorrect(View(), value);
      var slot;
      if |free| > 0 {
        slot := free[|free| - 1];
        free := free[..|free| - 1];
      } else if |entries| < capacity {
        slot := |entries|;
        if slot >= SLOT_LIMIT {
          return Err(Capacity);
        }
        entries := entries + [Vacant(1)];
      } else {
        return Err(Capacity);
      }
      if slot >= |entries| {
        return Err(Stale);
      }
      match entries[slot]
      case Vacant(generation) =>
        entries := entries[slot := Live(generation, value)];
        assert old(|free|) == 0 ==> entries == old(entries) + [Live(1, value)];
        r := Ok(StableHandle(runtime, slot, generation));
      case _ =>
        r := Err(Stale);
    }

    method Release(h: StableHandle) returns (r: Result<T, HandleError>)
      requires View().Valid()
      modifies this
      ensures (View(), r) == Released(old(View()), h)
      ensures View().Valid()
    {
      ReleaseCorrect(View(), h);
      match View().Validate(h)
      case Err(error) =>
        r := Err(error);
      case Ok(index) =>
        var was := entries[index];
        entries := entries[index := Retired];
        if was.generation == MAX_GENERATION {
          retired := retired + 1;
        } else {
          entries := entries[index := Vacant(was.generation + 1)];
          free := free + [h.slot];
          assert entries == old(entries)[index := Vacant(was.generation + 1)];
        }
        r := Ok(was.value);
    }

    method Relocate(h: StableHandle, value: T) returns (r: Result<(), HandleError>)
      requires View().Valid()
      modifies this
      ensures (View(), r) == Relocated(old(View()), h, value)
      ensures View().Valid()
    {
      if View().IsLive(h) { RelocateCorrect(View(), h, value); }
      match View().Validate(h)
      case Err(error) =>
        r := Err(error);
      case Ok(index) =>
        entries := entries[index := Live(entries[index].generation, value)];
        r := Ok(());
    }
  }
}
