/**
  The object heap of the register machine (src/object/heap.rs): slots with
  generations, shapes of instances, and the critical operations on them as
  functions. The class that updates its fields in place is HeapObjects.ObjectHeap.
 */
module ObjectHeaps {
  import opened Wrappers
  import opened Values
  import opened Sequences

  const SHAPE_MAX: nat := 0xFFFF_FFFF_FFFF_FFFF
  const GENERATION_MAX: nat := 0xFFFF_FFFF

  datatype Obj =
    | ClassObject(id: nat, methods: map<string, nat>)
    | Instance(class_: ObjectRef, classId: nat, shape: nat, fields: seq<(string, Value)>)
    | List(items: Storage, version: nat)
    | Tuple(items: Storage, version: nat)
    | BoundMethod(receiver: ObjectRef, method_: nat)
    | OtherObject(code: nat)

  datatype ObjectError =
    | WrongHeap | InvalidSlot | StaleGeneration | VacantSlot | SlotCapacityExhausted | GenerationExhausted
    | UninitializedValue | NotClass | NotInstance | MissingAttribute

  datatype Slot = Slot(generation: nat, obj: Option<Obj>)

  // A class and the names of the fields.
  type ShapeKey = (nat, seq<string>)

  type Shapes = map<ShapeKey, nat>

  datatype Heap = Heap(heapId: nat, slots: seq<Slot>, freeSlots: seq<nat>, shapes: Shapes, nextShape: nat)

  // ------------------------------------------------------------------------ slots

  function Get(h: Heap, r: ObjectRef): Result<Obj, ObjectError> {
    if r.heapId != h.heapId then Err(WrongHeap)
    else if r.slot >= |h.slots| then Err(InvalidSlot)
    else if h.slots[r.slot].generation != r.generation then Err(StaleGeneration)
    else if h.slots[r.slot].obj.None? then Err(VacantSlot)
    else Ok(h.slots[r.slot].obj.value)
  }

  predicate IsLive(h: Heap, r: ObjectRef) {
    Get(h, r).Ok?
  }

  function Written(h: Heap, r: ObjectRef, obj: Obj): Heap
    requires IsLive(h, r)
  {
    h.(slots := h.slots[r.slot := Slot(r.generation, Some(obj))])
  }

  function ValidateValue(h: Heap, v: Value): Result<(), ObjectError> {
    match v
    case Uninitialized => Err(UninitializedValue)
    case Object(r) =>
      (match Get(h, r)
       case Ok(_) => Ok(())
       case Err(e) => Err(e))
    case _ => Ok(())
  }

  // Which error a reference gives: for another heap, then for no slot, then for an
  // earlier or later object of the slot, then for an empty slot.
  lemma GetExactly(h: Heap, r: ObjectRef)
    ensures Get(h, r) == Err(WrongHeap) <==> r.heapId != h.heapId
    ensures Get(h, r) == Err(InvalidSlot) <==> r.heapId == h.heapId && r.slot >= |h.slots|
    ensures Get(h, r) == Err(StaleGeneration) <==>
      r.heapId == h.heapId && r.slot < |h.slots| && r.generation != h.slots[r.slot].generation
    ensures Get(h, r) == Err(VacantSlot) <==>
      r.heapId == h.heapId && r.slot < |h.slots| && h.slots[r.slot] == Slot(r.generation, None)
    ensures forall obj :: Get(h, r) == Ok(obj) <==>
      r.heapId == h.heapId && r.slot < |h.slots| && h.slots[r.slot] == Slot(r.generation, Some(obj))
  {
  }

  // A vacated slot is used again under the next generation.
  function Allocated(h: Heap, obj: Obj): (Heap, Result<ObjectRef, ObjectError>) {
    if h.freeSlots != [] then
      var last := |h.freeSlots| - 1;
      var slot := h.freeSlots[last];
      var h' := h.(freeSlots := h.freeSlots[..last]);
      if slot >= |h.slots| then (h', Err(InvalidSlot))
      else if h.slots[slot].generation >= GENERATION_MAX then (h', Err(GenerationExhausted))
      else
        var generation := h.slots[slot].generation + 1;
        (h'.(slots := h.slots[slot := Slot(generation, Some(obj))]), Ok(ObjectRef(h.heapId, slot, generation)))
    else if |h.slots| > GENERATION_MAX then (h, Err(SlotCapacityExhausted))
    else (h.(slots := h.slots + [Slot(0, Some(obj))]), Ok(ObjectRef(h.heapId, |h.slots|, 0)))
  }

  function Removed(h: Heap, r: ObjectRef): (Heap, Result<Obj, ObjectError>) {
    match Get(h, r)
    case Err(e) => (h, Err(e))
    case Ok(obj) =>
      (h.(slots := h.slots[r.slot := Slot(r.generation, None)], freeSlots := h.freeSlots + [r.slot]), Ok(obj))
  }

  // Free slots are vacant and listed once.
  ghost predicate SlotsValid(h: Heap) {
    && (forall i :: 0 <= i < |h.freeSlots| ==> h.freeSlots[i] < |h.slots| && h.slots[h.freeSlots[i]].obj.None?)
    && (forall i, j :: 0 <= i < j < |h.freeSlots| ==> h.freeSlots[i] != h.freeSlots[j])
  }

  // Handed out once and given back: never valid again.
  predicate Spent(h: Heap, r: ObjectRef) {
    && r.heapId == h.heapId && r.slot < |h.slots|
    && (r.generation < h.slots[r.slot].generation || (r.generation == h.slots[r.slot].generation && h.slots[r.slot].obj.None?))
  }

  // A new reference was never handed out before, and changes no other object.
  lemma AllocateIsNew(h: Heap, obj: Obj)
    requires SlotsValid(h)
    ensures var (h', r) := Allocated(h, obj);
      && SlotsValid(h')
      && (r.Ok? ==> !IsLive(h, r.value) && !Spent(h, r.value) && Get(h', r.value) == Ok(obj))
      && (forall x :: IsLive(h, x) ==> Get(h', x) == Get(h, x))
      && (forall x :: IsLive(h', x) ==> IsLive(h, x) || r == Ok(x))
      && (forall x :: Spent(h, x) ==> Spent(h', x))
  {
    var (h', r) := Allocated(h, obj);
    forall x | IsLive(h, x) ensures Get(h', x) == Get(h, x) {
    }
  }

  // An object gets a place exactly when a vacated slot has a generation of 32 bits left
  // or, if none was vacated, a slot number of 32 bits is left; a vacated slot that is
  // used up is not offered again.
  lemma AllocateSucceedsExactly(h: Heap, obj: Obj)
    requires SlotsValid(h)
    ensures var (h', r) := Allocated(h, obj);
      && (h.freeSlots == [] ==>
            (r.Ok? <==> |h.slots| < 0x1_0000_0000) && (r.Err? ==> r == Err(SlotCapacityExhausted) && h' == h))
      && (h.freeSlots != [] ==>
            var last := |h.freeSlots| - 1;
            && (r.Ok? <==> h.slots[h.freeSlots[last]].generation < 0xFFFF_FFFF)
            && (r.Err? ==> r == Err(GenerationExhausted) && h' == h.(freeSlots := h.freeSlots[..last])))
  {
  }

  lemma RemoveSpends(h: Heap, r: ObjectRef)
    requires SlotsValid(h)
    ensures var (h', result) := Removed(h, r);
      && SlotsValid(h')
      && (result.Ok? <==> IsLive(h, r)) && (result.Ok? ==> Spent(h', r))
      && (forall x :: x != r ==> Get(h', x) == Get(h, x) || (Get(h', x).Err? && Get(h, x).Err?))
      && (forall x :: Spent(h, x) ==> Spent(h', x))
  {
    var (h', result) := Removed(h, r);
    if result.Ok? {
      assert r.slot !in h.freeSlots;
    }
  }

  // A spent reference never resolves.
  lemma SpentIsDead(h: Heap, r: ObjectRef)
    requires Spent(h, r)
    ensures !IsLive(h, r)
  {
  }

  // ----------------------------------------------------------------------- shapes

  function Interned(h: Heap, key: ShapeKey): (Heap, nat) {
    if key in h.shapes then (h, h.shapes[key])
    else
      (h.(nextShape := if h.nextShape < SHAPE_MAX then h.nextShape + 1 else SHAPE_MAX, shapes := h.shapes[key := h.nextShape]),
       h.nextShape)
  }

  function Names(fields: seq<(string, Value)>): seq<string> {
    seq(|fields|, i requires 0 <= i < |fields| => fields[i].0)
  }

  // The first position of a name.
  function Position(names: seq<string>, name: string): (p: Option<nat>)
    ensures p.Some? ==> p.value < |names| && names[p.value] == name && forall i :: 0 <= i < p.value ==> names[i] != name
    ensures p.None? ==> forall i :: 0 <= i < |names| ==> names[i] != name
  {
    if names == [] then None
    else if names[0] == name then Some(0)
    else
      match Position(names[1..], name)
      case None => None
      case Some(i) => Some(i + 1)
  }

  function Instantiated(h: Heap, class_: ObjectRef): (Heap, Result<ObjectRef, ObjectError>) {
    match Get(h, class_)
    case Err(e) => (h, Err(e))
    case Ok(obj) =>
      if !obj.ClassObject? then (h, Err(NotClass))
      else
        var (h', shape) := Interned(h, (obj.id, []));
        Allocated(h', Instance(class_, obj.id, shape, []))
  }

  function AttributeSet(h: Heap, receiver: ObjectRef, name: string, v: Value): (Heap, Result<(), ObjectError>) {
    match ValidateValue(h, v)
    case Err(e) => (h, Err(e))
    case Ok(_) =>
      match Get(h, receiver)
      case Err(e) => (h, Err(e))
      case Ok(obj) =>
        if !obj.Instance? then (h, Err(NotInstance))
        else
          match Position(Names(obj.fields), name)
          case Some(i) => (Written(h, receiver, obj.(fields := obj.fields[i := (name, v)])), Ok(()))
          case None =>
            var (h', shape) := Interned(h, (obj.classId, Names(obj.fields) + [name]));
            (Written(h', receiver, obj.(shape := shape, fields := obj.fields + [(name, v)])), Ok(()))
  }

  // Linear search, without any cache.
  function LookupField(h: Heap, receiver: ObjectRef, name: string): Result<Option<(nat, nat, Value)>, ObjectError> {
    match Get(h, receiver)
    case Err(e) => Err(e)
    case Ok(obj) =>
      if !obj.Instance? then Err(NotInstance)
      else
        match Position(Names(obj.fields), name)
        case None => Ok(None)
        case Some(i) => Ok(Some((obj.shape, i, obj.fields[i].1)))
  }

  function FieldAt(h: Heap, receiver: ObjectRef, shape: nat, index: nat): Result<Option<Value>, ObjectError> {
    match Get(h, receiver)
    case Err(e) => Err(e)
    case Ok(obj) =>
      if !obj.Instance? then Err(NotInstance)
      else if obj.shape != shape || index >= |obj.fields| then Ok(None)
      else Ok(Some(obj.fields[index].1))
  }

  // A field, or else a method of the class bound to the receiver.
  function AttributeGot(h: Heap, receiver: ObjectRef, name: string): (Heap, Result<Value, ObjectError>) {
    match Get(h, receiver)
    case Err(e) => (h, Err(e))
    case Ok(obj) =>
      if !obj.Instance? then (h, Err(NotInstance))
      else
        match Position(Names(obj.fields), name)
        case Some(i) => (h, Ok(obj.fields[i].1))
        case None =>
          match Get(h, obj.class_)
          case Err(e) => (h, Err(e))
          case Ok(class_) =>
            if !class_.ClassObject? then (h, Err(NotClass))
            else if name !in class_.methods then (h, Err(MissingAttribute))
            else
              match Allocated(h, BoundMethod(receiver, class_.methods[name]))
              case (h', Ok(r)) => (h', Ok(Object(r)))
              case (h', Err(e)) => (h', Err(e))
  }

  // Every shape id stands for one class and one list of field names.
  ghost predicate ShapesDistinct(shapes: Shapes) {
    forall a, b :: a in shapes && b in shapes && shapes[a] == shapes[b] ==> a == b
  }

  // The counter is past all ids, unless it has stopped.
  ghost predicate CountedUp(shapes: Shapes, next: nat) {
    && next <= SHAPE_MAX
    && forall key :: key in shapes ==> shapes[key] < next || shapes[key] == next == SHAPE_MAX
  }

  // Interning the key gives it an id of its own.
  predicate HasOwnShape(h: Heap, key: ShapeKey) {
    key in h.shapes || h.nextShape !in h.shapes.Values
  }

  // The shape of an instance is that of its class and its field names.
  ghost predicate Shaped(shapes: Shapes, obj: Obj) {
    obj.Instance? ==> (obj.classId, Names(obj.fields)) in shapes && shapes[(obj.classId, Names(obj.fields))] == obj.shape
  }

  ghost predicate ShapesValid(h: Heap) {
    && ShapesDistinct(h.shapes)
    && CountedUp(h.shapes, h.nextShape)
    && forall r :: IsLive(h, r) ==> Shaped(h.shapes, Get(h, r).value)
  }

  ghost predicate Valid(h: Heap) {
    SlotsValid(h) && ShapesValid(h)
  }

  // Interning keeps ids distinct exactly when the key is known or the id is unused.
  lemma InternDistinctExactly(h: Heap, key: ShapeKey)
    requires ShapesDistinct(h.shapes)
    ensures ShapesDistinct(Interned(h, key).0.shapes) <==> HasOwnShape(h, key)
  {
    var shapes := Interned(h, key).0.shapes;
    if key !in h.shapes && h.nextShape in h.shapes.Values {
      var other :| other in h.shapes && h.shapes[other] == h.nextShape;
      assert shapes[other] == shapes[key] && other != key;
    }
  }

  lemma InternKeeps(h: Heap, key: ShapeKey)
    requires CountedUp(h.shapes, h.nextShape)
    ensures var (h', shape) := Interned(h, key);
      && CountedUp(h'.shapes, h'.nextShape)
      && key in h'.shapes && h'.shapes[key] == shape
      && h.shapes.Keys <= h'.shapes.Keys && (forall k :: k in h.shapes ==> h'.shapes[k] == h.shapes[k])
      && h' == h.(shapes := h'.shapes, nextShape := h'.nextShape)
  {
  }

  // The id is unused as long as the counter counts.
  lemma CountingHasShapes(h: Heap, key: ShapeKey)
    requires CountedUp(h.shapes, h.nextShape) && h.nextShape < 0xFFFF_FFFF_FFFF_FFFF
    ensures HasOwnShape(h, key)
  {
  }

  // Once the counter is used up, the next two new shapes are the same one.
  lemma ExhaustedShapesCollide(h: Heap, a: ShapeKey, b: ShapeKey)
    requires h.nextShape == 0xFFFF_FFFF_FFFF_FFFF && a !in h.shapes && b !in h.shapes && a != b
    ensures Interned(Interned(h, a).0, b).1 == Interned(h, a).1
    ensures var shapes := Interned(Interned(h, a).0, b).0.shapes; a in shapes && b in shapes && shapes[a] == shapes[b]
  {
  }

  lemma WrittenOthers(h: Heap, r: ObjectRef, obj: Obj)
    requires IsLive(h, r)
    ensures Get(Written(h, r, obj), r) == Ok(obj)
    ensures forall x :: x != r ==> Get(Written(h, r, obj), x) == Get(h, x)
    ensures SlotsValid(h) ==> SlotsValid(Written(h, r, obj))
  {
    var h' := Written(h, r, obj);
    forall x | x != r ensures Get(h', x) == Get(h, x) {
    }
  }

  // An object that suits its shape may replace any other.
  lemma WrittenValid(h: Heap, r: ObjectRef, obj: Obj)
    requires Valid(h) && IsLive(h, r) && Shaped(h.shapes, obj)
    ensures Valid(Written(h, r, obj))
  {
    WrittenOthers(h, r, obj);
    var h' := Written(h, r, obj);
    forall x | IsLive(h', x) ensures Shaped(h'.shapes, Get(h', x).value) {
      if x != r {
        assert Get(h', x) == Get(h, x);
      }
    }
  }

  lemma InternedValid(h: Heap, key: ShapeKey)
    requires Valid(h)
    ensures Valid(Interned(h, key).0) <==> HasOwnShape(h, key)
  {
    InternKeeps(h, key);
    InternDistinctExactly(h, key);
    var h' := Interned(h, key).0;
    forall x | IsLive(h', x) ensures Shaped(h'.shapes, Get(h', x).value) {
      assert Get(h', x) == Get(h, x);
    }
  }

  lemma AllocatedValid(h: Heap, obj: Obj)
    requires Valid(h) && Shaped(h.shapes, obj)
    ensures Valid(Allocated(h, obj).0)
  {
    AllocateIsNew(h, obj);
    var (h', r) := Allocated(h, obj);
    forall x | IsLive(h', x) ensures Shaped(h'.shapes, Get(h', x).value) {
      if IsLive(h, x) {
        assert Get(h', x) == Get(h, x);
      } else {
        assert r == Ok(x) && Get(h', x) == Ok(obj);
      }
    }
  }

  lemma RemovedValid(h: Heap, r: ObjectRef)
    requires Valid(h)
    ensures Valid(Removed(h, r).0)
  {
    RemoveSpends(h, r);
    var h' := Removed(h, r).0;
    forall x | IsLive(h', x) ensures Shaped(h'.shapes, Get(h', x).value) {
      if Removed(h, r).1.Ok? {
        SpentIsDead(h', r);
        assert x != r;
      }
      assert Get(h', x) == Get(h, x);
    }
  }

  // The key that an instance of the class asks for, if it gets that far.
  function InstanceKey(h: Heap, class_: ObjectRef): Option<ShapeKey> {
    if Get(h, class_).Ok? && Get(h, class_).value.ClassObject? then Some((Get(h, class_).value.id, [])) else None
  }

  // The key that a new attribute asks for.
  function AttributeKey(h: Heap, receiver: ObjectRef, name: string, v: Value): Option<ShapeKey> {
    if ValidateValue(h, v).Err? || Get(h, receiver).Err? || !Get(h, receiver).value.Instance? then None
    else
      var obj := Get(h, receiver).value;
      if Position(Names(obj.fields), name).Some? then None else Some((obj.classId, Names(obj.fields) + [name]))
  }

  // Instantiation keeps the invariant exactly when its key gets an id of its own.
  lemma InstantiatedValid(h: Heap, class_: ObjectRef)
    requires Valid(h)
    ensures Valid(Instantiated(h, class_).0) <==> InstanceKey(h, class_).None? || HasOwnShape(h, InstanceKey(h, class_).value)
  {
    if InstanceKey(h, class_).Some? {
      var key := InstanceKey(h, class_).value;
      InternedValid(h, key);
      InternKeeps(h, key);
      InternDistinctExactly(h, key);
      var (h', shape) := Interned(h, key);
      assert Names([]) == [];
      if HasOwnShape(h, key) {
        AllocatedValid(h', Instance(class_, key.0, shape, []));
      }
    }
  }

  // So does setting an attribute.
  lemma AttributeSetValid(h: Heap, receiver: ObjectRef, name: string, v: Value)
    requires Valid(h)
    ensures var key := AttributeKey(h, receiver, name, v);
      Valid(AttributeSet(h, receiver, name, v).0) <==> key.None? || HasOwnShape(h, key.value)
  {
    var key := AttributeKey(h, receiver, name, v);
    if key.Some? {
      NewAttributeValid(h, receiver, name, v);
    } else if ValidateValue(h, v).Ok? && Get(h, receiver).Ok? && Get(h, receiver).value.Instance? {
      var obj := Get(h, receiver).value;
      assert Shaped(h.shapes, obj);
      var i := Position(Names(obj.fields), name).value;
      assert Names(obj.fields[i := (name, v)]) == Names(obj.fields);
      WrittenValid(h, receiver, obj.(fields := obj.fields[i := (name, v)]));
    }
  }

  lemma NewAttributeValid(h: Heap, receiver: ObjectRef, name: string, v: Value)
    requires Valid(h) && AttributeKey(h, receiver, name, v).Some?
    ensures Valid(AttributeSet(h, receiver, name, v).0) <==> HasOwnShape(h, AttributeKey(h, receiver, name, v).value)
  {
    var obj := Get(h, receiver).value;
    var key := AttributeKey(h, receiver, name, v).value;
    InternedValid(h, key);
    InternKeeps(h, key);
    InternDistinctExactly(h, key);
    var (h', shape) := Interned(h, key);
    assert Names(obj.fields + [(name, v)]) == key.1;
    assert Get(h', receiver) == Get(h, receiver);
    if HasOwnShape(h, key) {
      WrittenValid(h', receiver, obj.(shape := shape, fields := obj.fields + [(name, v)]));
    }
  }

  // What was stored is what is found.
  lemma SetThenLookup(h: Heap, receiver: ObjectRef, name: string, v: Value)
    requires AttributeSet(h, receiver, name, v).1.Ok?
    ensures var found := LookupField(AttributeSet(h, receiver, name, v).0, receiver, name);
      found.Ok? && found.value.Some? && found.value.value.2 == v
  {
    var obj := Get(h, receiver).value;
    var h' := AttributeSet(h, receiver, name, v).0;
    var position := Position(Names(obj.fields), name);
    if position.Some? {
      assert Names(obj.fields[position.value := (name, v)]) == Names(obj.fields);
    } else {
      var names := Names(obj.fields + [(name, v)]);
      assert names == Names(obj.fields) + [name];
      assert names[|names| - 1] == name;
    }
    WrittenOthers(if position.Some? then h else Interned(h, (obj.classId, Names(obj.fields) + [name])).0, receiver, Get(h', receiver).value);
  }

  // An attribute is set exactly on a live instance, to a value that is initialized and,
  // if it is an object, live. It becomes the field of that name and no other field of
  // the instance changes; a new field comes last.
  lemma AttributeSetExactly(h: Heap, receiver: ObjectRef, name: string, v: Value)
    ensures var (h', r) := AttributeSet(h, receiver, name, v);
      && (r.Ok? <==>
            && v != Uninitialized && (v.Object? ==> Get(h, v.reference).Ok?)
            && Get(h, receiver).Ok? && Get(h, receiver).value.Instance?)
      && (r.Err? ==> h' == h)
    ensures var (h', r) := AttributeSet(h, receiver, name, v);
      r.Ok? ==>
        && Get(h', receiver).Ok? && Get(h', receiver).value.Instance?
        && FieldSet(Get(h, receiver).value.fields, Get(h', receiver).value.fields, name, v)
  {
    var (h', r) := AttributeSet(h, receiver, name, v);
    if r.Ok? {
      var fields := Get(h, receiver).value.fields;
      var position := Position(Names(fields), name);
      forall i | 0 <= i < |fields| ensures Names(fields)[i] == fields[i].0 {
      }
    }
  }

  // The first field of the name has the value, or a new last one has; all others are the same.
  predicate FieldSet(fields: seq<(string, Value)>, fields': seq<(string, Value)>, name: string, v: Value) {
    if exists i :: 0 <= i < |fields| && fields[i].0 == name then
      && |fields'| == |fields|
      && forall i :: 0 <= i < |fields| ==> fields'[i] == if FirstNamed(fields, name, i) then (name, v) else fields[i]
    else fields' == fields + [(name, v)]
  }

  predicate FirstNamed(fields: seq<(string, Value)>, name: string, i: nat)
    requires i < |fields|
  {
    fields[i].0 == name && forall j :: 0 <= j < i ==> fields[j].0 != name
  }
}
