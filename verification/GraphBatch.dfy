/**
  Graph allocation (src/adaptive_v2/heap/transaction.rs): first one handle and
  one empty young cell per requested object, then the references patched in.
 */
module GraphBatch {
  import opened Wrappers
  import opened Handles
  import opened HeapModel

  const EMPTY_OBJECT := GcObject(None, [])

  // `n` handles allocated one after the other for the cells from `first` on.
  function Reserved(t: Table<Location>, first: nat, n: nat): (Table<Location>, seq<StableHandle>) {
    if n == 0 then (t, [])
    else
      var (before, handles) := Reserved(t, first, n - 1);
      match Allocated(before, Nursery(first + n - 1))
      case (after, Ok(handle)) => (after, handles + [handle])
      case (after, Err(_)) => (after, handles)
  }

  // What reserving `n` handles does while there is room for them.
  ghost predicate ReservedSpec(t: Table<Location>, first: nat, n: nat, t': Table<Location>, handles: seq<StableHandle>) {
    && t'.Valid() && t'.runtime == t.runtime && t'.capacity == t.capacity
    && |handles| == n
    && (forall i, j :: 0 <= i < j < n ==> handles[i] != handles[j])
    && (forall i :: 0 <= i < n ==> !t.Spent(handles[i]) && t'.Spent(handles[i]))
    && (forall g :: t.Spent(g) ==> t'.Spent(g))
    && (forall g :: t'.IsLive(g) <==> t.IsLive(g) || g in handles)
    && (forall g :: t.IsLive(g) ==> t'.At(g) == t.At(g))
    && (forall i :: 0 <= i < n ==> t'.At(handles[i]) == Nursery(first + i))
    && |t'.LiveSet()| == |t.LiveSet()| + n
    && t'.RemainingCapacity() == t.RemainingCapacity() - n && t'.Room() == t.Room() - n
  }

  lemma ReservedMore(
      t: Table<Location>, first: nat, n: nat, before: Table<Location>, handles: seq<StableHandle>, after: Table<Location>, added: StableHandle)
    requires ReservedSpec(t, first, n, before, handles)
    requires after.Valid() && after.runtime == before.runtime && after.capacity == before.capacity
    requires !before.Spent(added) && after.Spent(added) && (forall g :: before.Spent(g) ==> after.Spent(g))
    requires forall g :: after.IsLive(g) <==> before.IsLive(g) || g == added
    requires forall g :: before.IsLive(g) ==> after.At(g) == before.At(g)
    requires after.At(added) == Nursery(first + n)
    requires |after.LiveSet()| == |before.LiveSet()| + 1 && after.RemainingCapacity() == before.RemainingCapacity() - 1
    requires after.Room() == before.Room() - 1
    ensures ReservedSpec(t, first, n + 1, after, handles + [added])
  {
    var more := handles + [added];
    forall i | 0 <= i < n ensures after.At(more[i]) == Nursery(first + i) {
      assert handles[i] in handles;
    }
    forall g ensures after.IsLive(g) <==> t.IsLive(g) || g in more {
      assert g in more <==> g in handles || g == added;
    }
  }

  lemma ReservedNone(t: Table<Location>, first: nat)
    requires t.Valid()
    ensures ReservedSpec(t, first, 0, t, [])
  {
  }

  lemma ReservedNext(t: Table<Location>, first: nat, n: nat, before: Table<Location>, handles: seq<StableHandle>)
    requires ReservedSpec(t, first, n, before, handles) && HasRoom(before)
    ensures var (after, r) := Allocated(before, Nursery(first + n));
      r.Ok? && ReservedSpec(t, first, n + 1, after, handles + [r.value])
  {
    AllocateCorrect(before, Nursery(first + n));
    var (after, r) := Allocated(before, Nursery(first + n));
    ReservedMore(t, first, n, before, handles, after, r.value);
  }

  lemma ReservedHasRoom(t: Table<Location>, first: nat, n: nat, before: Table<Location>, handles: seq<StableHandle>)
    requires ReservedSpec(t, first, n, before, handles) && n < t.Room()
    ensures HasRoom(before)
  {
    RoomIsRemaining(before);
  }

  lemma {:induction false} ReservedCorrect(t: Table<Location>, first: nat, n: nat) returns (t': Table<Location>, handles: seq<StableHandle>)
    requires t.Valid() && n <= t.Room()
    ensures Reserved(t, first, n) == (t', handles)
    ensures ReservedSpec(t, first, n, t', handles)
  {
    hide Table.Valid, Allocated, ReservedSpec;
    if n == 0 {
      t', handles := t, [];
      ReservedNone(t, first);
    } else {
      var before, issued := ReservedCorrect(t, first, n - 1);
      ReservedHasRoom(t, first, n - 1, before, issued);
      ReservedNext(t, first, n - 1, before, issued);
      t' := Allocated(before, Nursery(first + n - 1)).0;
      handles := issued + [Allocated(before, Nursery(first + n - 1)).1.value];
    }
  }

  // While handles are still to be reserved, the next allocation succeeds.
  lemma ReservedRoom(t: Table<Location>, first: nat, k: nat)
    requires t.Valid() && k < t.Room()
    ensures var (before, handles) := Reserved(t, first, k);
      var (after, r) := Allocated(before, Nursery(first + k));
      r.Ok? && Reserved(t, first, k + 1) == (after, handles + [r.value])
  {
    var before, _ := ReservedCorrect(t, first, k);
    RoomIsRemaining(before);
    AllocatedHandle(before, Nursery(first + k));
  }

  // When the room is used up the next one fails.
  lemma ReservedAll(t: Table<Location>, first: nat)
    requires t.Valid()
    ensures var (after, handles) := Reserved(t, first, t.Room());
      && Allocated(after, Nursery(first + t.Room())) == (after, Err(Capacity))
      && |after.LiveSet()| == |t.LiveSet()| + t.Room()
  {
    var after, _ := ReservedCorrect(t, first, t.Room());
    RoomIsRemaining(after);
    AllocatedHandle(after, Nursery(first + t.Room()));
  }

  function PatchedCell(references: seq<BatchReference>, handles: seq<StableHandle>): NurseryCell {
    NurseryCell(GcObject(None, Targets(references, handles)), 0)
  }

  // The nursery with its first `k` new cells filled in.
  ghost predicate PatchedSpec(
      nursery: seq<Option<NurseryCell>>, batch: Batch, handles: seq<StableHandle>, k: nat, nursery': seq<Option<NurseryCell>>)
  {
    && |nursery'| == |nursery| + |batch| && k <= |batch|
    && (forall i :: 0 <= i < |nursery| ==> nursery'[i] == nursery[i])
    && (forall i :: |nursery| <= i < |nursery| + k ==> nursery'[i] == Some(PatchedCell(batch[i - |nursery|], handles)))
    && (forall i :: |nursery| + k <= i < |nursery'| ==> nursery'[i] == Some(NurseryCell(EMPTY_OBJECT, 0)))
  }

  lemma BatchMapped(h: Heap, batch: Batch, t: Table<Location>, handles: seq<StableHandle>, nursery: seq<Option<NurseryCell>>)
    requires Mapped(h.table, h.nursery, h.oldSpace) && ReservedSpec(h.table, |h.nursery|, |batch|, t, handles)
    requires PatchedSpec(h.nursery, batch, handles, |batch|, nursery)
    ensures Mapped(t, nursery, h.oldSpace)
    ensures forall g :: h.table.IsLive(g) ==> CellIn(nursery, h.oldSpace, t.At(g)) == CellIn(h.nursery, h.oldSpace, h.table.At(g))
    ensures forall i :: 0 <= i < |batch| ==>
      CellIn(nursery, h.oldSpace, t.At(handles[i])) == Some(GcObject(None, Targets(batch[i], handles)))
  {
    forall g | h.table.IsLive(g)
      ensures CellIn(nursery, h.oldSpace, t.At(g)).Some?
      ensures CellIn(nursery, h.oldSpace, t.At(g)) == CellIn(h.nursery, h.oldSpace, h.table.At(g))
      ensures t.At(g).Nursery? ==> t.At(g).index < |h.nursery|
    {
      assert CellIn(h.nursery, h.oldSpace, h.table.At(g)).Some?;
    }
    forall i | 0 <= i < |batch|
      ensures CellIn(nursery, h.oldSpace, t.At(handles[i])) == Some(GcObject(None, Targets(batch[i], handles)))
    {
      assert nursery[|h.nursery| + i] == Some(PatchedCell(batch[i], handles));
    }
    forall x, y | t.IsLive(x) && t.IsLive(y) && t.At(x) == t.At(y) ensures x == y {
      assert h.table.IsLive(x) || exists i :: 0 <= i < |handles| && handles[i] == x;
      assert h.table.IsLive(y) || exists i :: 0 <= i < |handles| && handles[i] == y;
    }
  }

  lemma BatchCovered(h: Heap, batch: Batch, t: Table<Location>, handles: seq<StableHandle>, nursery: seq<Option<NurseryCell>>)
    requires Covered(h.table, h.nursery, h.oldSpace) && ReservedSpec(h.table, |h.nursery|, |batch|, t, handles)
    requires PatchedSpec(h.nursery, batch, handles, |batch|, nursery)
    ensures Covered(t, nursery, h.oldSpace)
  {
    forall l | Named(h.table, l) ensures Named(t, l) {
      var g :| h.table.IsLive(g) && h.table.At(g) == l;
      assert t.IsLive(g) && t.At(g) == l;
    }
    forall i | |h.nursery| <= i < |nursery| ensures Named(t, Nursery(i)) {
      var g := handles[i - |h.nursery|];
      assert g in handles;
      assert t.IsLive(g) && t.At(g) == Nursery(i);
    }
  }

  lemma BatchValid(h: Heap, batch: Batch, t: Table<Location>, handles: seq<StableHandle>, nursery: seq<Option<NurseryCell>>)
    requires h.Valid() && ReservedSpec(h.table, |h.nursery|, |batch|, t, handles)
    requires PatchedSpec(h.nursery, batch, handles, |batch|, nursery)
    ensures h.(table := t, nursery := nursery, live := h.live + |batch|).Valid()
  {
    BatchMapped(h, batch, t, handles, nursery);
    BatchCovered(h, batch, t, handles, nursery);
  }

  lemma BatchObjects(h: Heap, batch: Batch, t: Table<Location>, handles: seq<StableHandle>, nursery: seq<Option<NurseryCell>>)
    requires Mapped(h.table, h.nursery, h.oldSpace) && ReservedSpec(h.table, |h.nursery|, |batch|, t, handles)
    requires PatchedSpec(h.nursery, batch, handles, |batch|, nursery)
    ensures var h' := h.(table := t, nursery := nursery, live := h.live + |batch|);
      && KeepsObjects(h, h', h.LiveSet())
      && (forall g :: h.table.IsLive(g) ==> h'.AgeOf(g) == h.AgeOf(g))
      && (forall i :: 0 <= i < |batch| ==>
            && h'.ObjectOf(handles[i]) == GcObject(None, Targets(batch[i], handles))
            && !h'.IsOld(handles[i]) && h'.AgeOf(handles[i]) == 0)
  {
    BatchMapped(h, batch, t, handles, nursery);
    forall g | h.table.IsLive(g) && h.table.At(g).Nursery? ensures h.table.At(g).index < |h.nursery| {
      assert CellIn(h.nursery, h.oldSpace, h.table.At(g)).Some?;
    }
    forall i | 0 <= i < |batch| ensures t.IsLive(handles[i]) {
      assert handles[i] in handles;
    }
  }

  // Reserving and patching is exactly the requested graph.
  lemma BatchCorrect(
      h: Heap, batch: Batch, limit: Option<nat>, t: Table<Location>, handles: seq<StableHandle>, nursery: seq<Option<NurseryCell>>)
    requires h.Valid() && GraphAccepted(h, batch, limit)
    requires ReservedSpec(h.table, |h.nursery|, |batch|, t, handles)
    requires PatchedSpec(h.nursery, batch, handles, |batch|, nursery)
    ensures GraphSpec(h, h.(table := t, nursery := nursery, live := h.live + |batch|), batch, limit, Ok(handles))
  {
    BatchValid(h, batch, t, handles, nursery);
    BatchObjects(h, batch, t, handles, nursery);
  }

  // An accepted batch is the requested graph: a reference to another new object is its
  // handle, any other reference is the handle that was given.
  lemma GraphEdges(
      h: Heap, h': Heap, batch: Batch, limit: Option<nat>, r: Result<seq<StableHandle>, GcError>, i: nat, j: nat)
    requires GraphSpec(h, h', batch, limit, r) && r.Ok? && i < |batch| && j < |batch[i]|
    ensures |r.value| == |batch| && |h'.ObjectOf(r.value[i]).references| == |batch[i]|
    ensures match batch[i][j]
      case Object(k) => k < |r.value| && h'.ObjectOf(r.value[i]).references[j] == r.value[k]
      case External(handle) => h.table.IsLive(handle) && h'.ObjectOf(r.value[i]).references[j] == handle
  {
    assert ReferenceAccepted(h, |batch|, batch[i][j]);
    assert h'.ObjectOf(r.value[i]).references == Targets(batch[i], r.value);
  }
}
