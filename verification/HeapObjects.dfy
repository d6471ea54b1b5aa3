/**
  The object heap as an object (src/object/heap.rs) whose methods update its slots
  and shapes in place, the write-back of list snapshots, and attribute sites
  (src/wvm/callables.rs).
 */
module HeapObjects {
  import opened Wrappers
  import opened Values
  import opened Sequences
  import opened ObjectHeaps
  import AttributeCache

  // ------------------------------------------------------------- list snapshots

  // New contents of a list that holds integers or floats only.
  datatype Numbers = Integers(ints: seq<int>) | Doubles(bits: seq<nat>)

  function StorageFor(n: Numbers): Storage {
    match n
    case Integers(is_) => if is_ == [] then Empty else Ints(is_)
    case Doubles(bits) => if bits == [] then Empty else Floats(bits)
  }

  datatype Commit = Commit(reference: ObjectRef, version: nat, numbers: Numbers)

  // The list has not moved since the snapshot and can take these numbers.
  predicate Current(obj: Obj, c: Commit) {
    obj.List? && obj.version == c.version &&
    (obj.items.Empty? || (if c.numbers.Integers? then obj.items.Ints? else obj.items.Floats?))
  }

  predicate CurrentIn(h: Heap, c: Commit) {
    Get(h, c.reference).Ok? && Current(Get(h, c.reference).value, c)
  }

  function Committed(c: Commit): Obj {
    List(StorageFor(c.numbers), Bumped(c.version))
  }

  // A list of exactly these numbers, in order.
  ghost predicate Holds(obj: Obj, n: Numbers) {
    obj.List? &&
    match n
    case Integers(is_) =>
      |Contents(obj.items)| == |is_| && forall k :: 0 <= k < |is_| ==> Contents(obj.items)[k] == SmallInt(is_[k])
    case Doubles(bits) =>
      |Contents(obj.items)| == |bits| && forall k :: 0 <= k < |bits| ==> Contents(obj.items)[k] == Float(bits[k])
  }

  // What a list was committed to is a list of those numbers, and its version moves on
  // until it is used up.
  lemma CommittedHolds(c: Commit)
    ensures Holds(Committed(c), c.numbers)
    ensures c.version < 0xFFFF_FFFF_FFFF_FFFF ==> Committed(c).version == c.version + 1
  {
  }

  // So what was borrowed at the same version is refused from then on, whatever it holds.
  lemma SecondCommitRefused(c: Commit, again: Commit)
    requires again.version == c.version < 0xFFFF_FFFF_FFFF_FFFF
    ensures !Current(Committed(c), again)
  {
  }

  // A commit is accepted exactly for lists of its kind of number, or without elements,
  // that are still at its version.
  lemma CurrentIsKind(obj: Obj, c: Commit)
    ensures Current(obj, c) <==>
      && obj.List? && obj.version == c.version
      && (obj.items == Empty || StrategyOf(obj.items) == if c.numbers.Integers? then I64Strategy else F64Strategy)
  {
  }

  predicate DistinctLists(commits: seq<Commit>) {
    forall i, j :: 0 <= i < j < |commits| ==> commits[i].reference != commits[j].reference
  }

  // Exactly the named lists hold exactly what was committed.
  ghost predicate WroteAll(h: Heap, h': Heap, commits: seq<Commit>) {
    && (forall i :: 0 <= i < |commits| ==> Get(h', commits[i].reference) == Ok(Committed(commits[i])))
    && (forall r :: (forall i :: 0 <= i < |commits| ==> commits[i].reference != r) ==> Get(h', r) == Get(h, r))
    && h' == h.(slots := h'.slots) && |h'.slots| == |h.slots|
    && forall s :: 0 <= s < |h.slots| ==>
         h'.slots[s].generation == h.slots[s].generation && (h'.slots[s].obj.None? <==> h.slots[s].obj.None?)
  }

  // Every list that was named holds exactly the numbers committed to it, in order, under
  // the next version.
  ghost predicate AllHold(h': Heap, commits: seq<Commit>) {
    forall i :: 0 <= i < |commits| ==>
      && Get(h', commits[i].reference).Ok?
      && Holds(Get(h', commits[i].reference).value, commits[i].numbers)
      && (commits[i].version < 0xFFFF_FFFF_FFFF_FFFF ==> Get(h', commits[i].reference).value.version == commits[i].version + 1)
  }

  lemma WroteHolds(h: Heap, h': Heap, commits: seq<Commit>)
    requires WroteAll(h, h', commits)
    ensures AllHold(h', commits)
  {
    forall i | 0 <= i < |commits| ensures Holds(Committed(commits[i]), commits[i].numbers) {
      CommittedHolds(commits[i]);
    }
  }

  lemma WroteNone(h: Heap)
    ensures WroteAll(h, h, [])
  {
  }

  lemma WroteMore(h: Heap, h': Heap, commits: seq<Commit>, c: Commit)
    requires WroteAll(h, h', commits) && Get(h', c.reference).Ok?
    requires forall i :: 0 <= i < |commits| ==> commits[i].reference != c.reference
    ensures WroteAll(h, Written(h', c.reference, Committed(c)), commits + [c])
  {
    var h'' := Written(h', c.reference, Committed(c));
    var all := commits + [c];
    WrittenOthers(h', c.reference, Committed(c));
    forall i | 0 <= i < |all| ensures Get(h'', all[i].reference) == Ok(Committed(all[i])) {
    }
    forall r | forall i :: 0 <= i < |all| ==> all[i].reference != r ensures Get(h'', r) == Get(h, r) {
      assert all[|commits|] == c;
      forall i | 0 <= i < |commits| ensures commits[i].reference != r {
        assert all[i] == commits[i];
      }
    }
  }

  // Write-backs change lists only, so shapes stay what they are.
  lemma WroteValid(h: Heap, h': Heap, commits: seq<Commit>)
    requires Valid(h) && WroteAll(h, h', commits)
    requires forall i :: 0 <= i < |commits| ==> IsLive(h, commits[i].reference)
    ensures Valid(h')
  {
    forall r | IsLive(h', r) ensures Shaped(h'.shapes, Get(h', r).value) {
      if i :| 0 <= i < |commits| && commits[i].reference == r {
        assert Get(h', r).value == Committed(commits[i]);
      } else {
        assert Get(h', r) == Get(h, r);
      }
    }
  }

  class ObjectHeap {
    const heapId: nat
    var slots: seq<Slot>
    var freeSlots: seq<nat>
    var shapes: Shapes
    var nextShape: nat

    function View(): Heap
      reads this
    {
      Heap(heapId, slots, freeSlots, shapes, nextShape)
    }

    constructor (id: nat)
      ensures View() == Heap(id, [], [], map[], 1) && ObjectHeaps.Valid(View())
    {
      heapId := id;
      slots, freeSlots, shapes, nextShape := [], [], map[], 1;
    }

    method Allocate(obj: Obj) returns (r: Result<ObjectRef, ObjectError>)
      modifies this`slots, this`freeSlots
      ensures (View(), r) == Allocated(old(View()), obj)
    {
      if freeSlots != [] {
        var slot := freeSlots[|freeSlots| - 1];
        freeSlots := freeSlots[..|freeSlots| - 1];
        if slot >= |slots| {
          return Err(InvalidSlot);
        }
        if slots[slot].generation >= GENERATION_MAX {
          return Err(GenerationExhausted);
        }
        var generation := slots[slot].generation + 1;
        slots := slots[slot := Slot(generation, Some(obj))];
        return Ok(ObjectRef(heapId, slot, generation));
      }
      if |slots| > GENERATION_MAX {
        return Err(SlotCapacityExhausted);
      }
      slots := slots + [Slot(0, Some(obj))];
      return Ok(ObjectRef(heapId, |slots| - 1, 0));
    }

    method Remove(reference: ObjectRef) returns (r: Result<Obj, ObjectError>)
      modifies this`slots, this`freeSlots
      ensures (View(), r) == Removed(old(View()), reference)
    {
      r := Get(View(), reference);
      if r.Ok? {
        slots := slots[reference.slot := Slot(reference.generation, None)];
        freeSlots := freeSlots + [reference.slot];
      }
    }

    method InternShape(class_: nat, fields: seq<string>) returns (shape: nat)
      modifies this`shapes, this`nextShape
      ensures (View(), shape) == Interned(old(View()), (class_, fields))
    {
      if (class_, fields) in shapes {
        return shapes[(class_, fields)];
      }
      shape := nextShape;
      nextShape := if nextShape < SHAPE_MAX then nextShape + 1 else SHAPE_MAX;
      shapes := shapes[(class_, fields) := shape];
    }

    method Instantiate(class_: ObjectRef) returns (r: Result<ObjectRef, ObjectError>)
      modifies this
      ensures (View(), r) == Instantiated(old(View()), class_)
    {
      var obj := Get(View(), class_);
      if obj.Err? {
        return Err(obj.error);
      }
      if !obj.value.ClassObject? {
        return Err(NotClass);
      }
      var shape := InternShape(obj.value.id, []);
      r := Allocate(Instance(class_, obj.value.id, shape, []));
    }

    method SetAttribute(receiver: ObjectRef, name: string, v: Value) returns (r: Result<(), ObjectError>)
      modifies this
      ensures (View(), r) == AttributeSet(old(View()), receiver, name, v)
    {
      var checked := ValidateValue(View(), v);
      if checked.Err? {
        return checked;
      }
      var obj := Get(View(), receiver);
      if obj.Err? {
        return Err(obj.error);
      }
      if !obj.value.Instance? {
        return Err(NotInstance);
      }
      var instance := obj.value;
      match Position(Names(instance.fields), name) {
        case Some(i) =>
          instance := instance.(fields := instance.fields[i := (name, v)]);
        case None =>
          var shape := InternShape(instance.classId, Names(instance.fields) + [name]);
          instance := instance.(shape := shape, fields := instance.fields + [(name, v)]);
      }
      slots := slots[receiver.slot := Slot(receiver.generation, Some(instance))];
      return Ok(());
    }

    // Validation of the whole set comes before the first write.
    method CommitSnapshots(commits: seq<Commit>) returns (r: Result<bool, ObjectError>)
      modifies this`slots
      ensures r == Ok(true) <==> DistinctLists(commits) && forall i :: 0 <= i < |commits| ==> CurrentIn(old(View()), commits[i])
      ensures r == Ok(true) ==> WroteAll(old(View()), View(), commits)
      ensures r == Ok(true) ==> AllHold(View(), commits)
      ensures r != Ok(true) ==> View() == old(View())
    {
      hide AllHold;
      ghost var h := View();
      var seen: set<ObjectRef> := {};
      for i := 0 to |commits|
        invariant View() == h
        invariant seen == set j | 0 <= j < i :: commits[j].reference
        invariant DistinctLists(commits[..i])
        invariant forall j :: 0 <= j < i ==> CurrentIn(h, commits[j])
      {
        if commits[i].reference in seen {
          return Ok(false);
        }
        seen := seen + {commits[i].reference};
        var obj := Get(View(), commits[i].reference);
        if obj.Err? {
          return Err(obj.error);
        }
        if !Current(obj.value, commits[i]) {
          return Ok(false);
        }
      }
      assert commits[..|commits|] == commits;
      WroteNone(h);
      for i := 0 to |commits|
        invariant WroteAll(h, View(), commits[..i])
      {
        assert commits[..i + 1] == commits[..i] + [commits[i]];
        assert Get(View(), commits[i].reference) == Get(h, commits[i].reference);
        WroteMore(h, View(), commits[..i], commits[i]);
        slots := slots[commits[i].reference.slot := Slot(commits[i].reference.generation, Some(Committed(commits[i])))];
      }
      assert commits[..|commits|] == commits;
      WroteHolds(h, View(), commits);
      return Ok(true);
    }
  }

  // ------------------------------------------------------------------ attribute sites

  class AttributeSite {
    var site: AttributeCache.Site

    constructor ()
      ensures site == AttributeCache.EmptySite()
    {
      site := AttributeCache.EmptySite();
    }

    // One attribute access: by the cached shape, or by search.
    method PreparedAttribute(heap: ObjectHeap, receiver: Value, name: string) returns (r: Result<Value, AttributeCache.AttributeError>)
      modifies this, heap`slots, heap`freeSlots
      ensures (heap.View(), site, r) == AttributeCache.Prepared(old(heap.View()), old(site), receiver, name)
    {
      if !receiver.Object? {
        return Err(AttributeCache.NotAnObject);
      }
      var obj := Get(heap.View(), receiver.reference);
      if obj.Err? {
        return Err(AttributeCache.HeapError(obj.error));
      }
      if !obj.value.Instance? {
        return Err(AttributeCache.HeapError(NotInstance));
      }
      var index := AttributeCache.Cached(site, obj.value.shape);
      if index.Some? {
        var hit := FieldAt(heap.View(), receiver.reference, obj.value.shape, index.value);
        if hit.Ok? && hit.value.Some? {
          return Ok(hit.value.value);
        }
      }
      var found := LookupField(heap.View(), receiver.reference, name);
      if found.Ok? && found.value.Some? {
        var (shape, position, v) := found.value.value;
        if !site.megamorphic {
          var target := AttributeCache.Target(shape, position);
          if site.first.None? {
            site := site.(first := Some(target));
          } else if site.second.None? {
            site := site.(second := Some(target));
          } else {
            site := site.(megamorphic := true);
          }
        }
        return Ok(v);
      }
      r := BindMethod(heap, receiver.reference, obj.value.class_, name);
    }

    // No such field: a method of the class, bound to the receiver.
    static method BindMethod(heap: ObjectHeap, receiver: ObjectRef, class_: ObjectRef, name: string)
      returns (r: Result<Value, AttributeCache.AttributeError>)
      requires IsLive(heap.View(), receiver) && Get(heap.View(), receiver).value.Instance?
      requires Get(heap.View(), receiver).value.class_ == class_
      requires Position(Names(Get(heap.View(), receiver).value.fields), name).None?
      modifies heap`slots, heap`freeSlots
      ensures (heap.View(), r) == AttributeCache.Uncached(old(heap.View()), Object(receiver), name)
    {
      var obj := Get(heap.View(), class_);
      if obj.Err? {
        return Err(AttributeCache.HeapError(obj.error));
      }
      if !obj.value.ClassObject? {
        return Err(AttributeCache.HeapError(NotClass));
      }
      if name !in obj.value.methods {
        return Err(AttributeCache.HeapError(MissingAttribute));
      }
      var bound := heap.Allocate(BoundMethod(receiver, obj.value.methods[name]));
      if bound.Err? {
        return Err(AttributeCache.HeapError(bound.error));
      }
      return Ok(Object(bound.value));
    }
  }
}
