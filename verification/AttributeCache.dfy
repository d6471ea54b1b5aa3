/**
  Shape-keyed attribute sites (src/wvm/callables.rs): two cached pairs of shape and
  index, then megamorphic. In every state that the heap's operations reach, a cached
  answer is the answer of the linear search.
 */
module AttributeCache {
  import opened Wrappers
  import opened Values
  import opened Sequences
  import opened ObjectHeaps

  datatype Target = Target(shape: nat, index: nat)

  datatype Site = Site(first: Option<Target>, second: Option<Target>, megamorphic: bool)

  function EmptySite(): Site {
    Site(None, None, false)
  }

  function Cached(site: Site, shape: nat): Option<nat> {
    if site.first.Some? && site.first.value.shape == shape then Some(site.first.value.index)
    else if site.second.Some? && site.second.value.shape == shape then Some(site.second.value.index)
    else None
  }

  function Recorded(site: Site, target: Target): Site {
    if site.megamorphic then site
    else if site.first.None? then site.(first := Some(target))
    else if site.second.None? then site.(second := Some(target))
    else site.(megamorphic := true)
  }

  datatype AttributeError = NotAnObject | HeapError(error: ObjectError)

  // An attribute access through a site.
  function Prepared(h: Heap, site: Site, receiver: Value, name: string): (Heap, Site, Result<Value, AttributeError>) {
    if !receiver.Object? then (h, site, Err(NotAnObject))
    else
      var r := receiver.reference;
      match Get(h, r)
      case Err(e) => (h, site, Err(HeapError(e)))
      case Ok(obj) =>
        if !obj.Instance? then (h, site, Err(HeapError(NotInstance)))
        else
          var index := Cached(site, obj.shape);
          var hit := if index.Some? then FieldAt(h, r, obj.shape, index.value) else Ok(None);
          if hit.Err? then (h, site, Err(HeapError(hit.error)))
          else if hit.value.Some? then (h, site, Ok(hit.value.value))
          else
            match LookupField(h, r, name)
            case Err(e) => (h, site, Err(HeapError(e)))
            case Ok(None) =>
              (match AttributeGot(h, r, name)
               case (h', Ok(v)) => (h', site, Ok(v))
               case (h', Err(e)) => (h', site, Err(HeapError(e))))
            case Ok(Some((shape, i, v))) => (h, Recorded(site, Target(shape, i)), Ok(v))
  }

  // The same access without a site.
  function Uncached(h: Heap, receiver: Value, name: string): (Heap, Result<Value, AttributeError>) {
    if !receiver.Object? then (h, Err(NotAnObject))
    else
      match AttributeGot(h, receiver.reference, name)
      case (h', Ok(v)) => (h', Ok(v))
      case (h', Err(e)) => (h', Err(HeapError(e)))
  }

  // A target is right for a name: its shape lists the name first at its index.
  ghost predicate TargetHolds(shapes: Shapes, name: string, target: Target) {
    exists key :: key in shapes && shapes[key] == target.shape && Position(key.1, name) == Some(target.index)
  }

  ghost predicate SiteHolds(shapes: Shapes, name: string, site: Site) {
    && (site.first.Some? ==> TargetHolds(shapes, name, site.first.value))
    && (site.second.Some? ==> TargetHolds(shapes, name, site.second.value))
  }

  // Shapes are only ever added.
  predicate ShapesGrow(shapes: Shapes, shapes': Shapes) {
    shapes.Keys <= shapes'.Keys && forall key :: key in shapes ==> shapes'[key] == shapes[key]
  }

  lemma SiteStaysRight(shapes: Shapes, shapes': Shapes, name: string, site: Site)
    requires SiteHolds(shapes, name, site) && ShapesGrow(shapes, shapes')
    ensures SiteHolds(shapes', name, site)
  {
    forall target | TargetHolds(shapes, name, target) ensures TargetHolds(shapes', name, target) {
      var key :| key in shapes && shapes[key] == target.shape && Position(key.1, name) == Some(target.index);
      assert key in shapes';
    }
  }

  // A hit is the field that linear search finds.
  lemma HitIsField(h: Heap, site: Site, r: ObjectRef, name: string)
    requires Valid(h) && SiteHolds(h.shapes, name, site)
    requires IsLive(h, r) && Get(h, r).value.Instance? && Cached(site, Get(h, r).value.shape).Some?
    ensures var obj, index := Get(h, r).value, Cached(site, Get(h, r).value.shape).value;
      Position(Names(obj.fields), name) == Some(index) && FieldAt(h, r, obj.shape, index) == Ok(Some(obj.fields[index].1))
  {
    var obj := Get(h, r).value;
    assert Shaped(h.shapes, obj);
    var target := if site.first.Some? && site.first.value.shape == obj.shape then site.first.value else site.second.value;
    assert TargetHolds(h.shapes, name, target);
    var key :| key in h.shapes && h.shapes[key] == target.shape && Position(key.1, name) == Some(target.index);
    assert key == (obj.classId, Names(obj.fields));
  }

  // The site changes neither the answer nor the heap, and stays right.
  lemma PreparedIsUncached(h: Heap, site: Site, receiver: Value, name: string)
    requires Valid(h) && SiteHolds(h.shapes, name, site)
    ensures var (h', site', answer) := Prepared(h, site, receiver, name);
      && (h', answer) == Uncached(h, receiver, name)
      && SiteHolds(h'.shapes, name, site') && Valid(h')
  {
    if receiver.Object? && Get(h, receiver.reference).Ok? && Get(h, receiver.reference).value.Instance? {
      var r := receiver.reference;
      var obj := Get(h, r).value;
      if Cached(site, obj.shape).Some? {
        HitIsField(h, site, r, name);
      } else {
        var position := Position(Names(obj.fields), name);
        if position.Some? {
          assert Shaped(h.shapes, obj);
          assert TargetHolds(h.shapes, name, Target(obj.shape, position.value));
        } else {
          MissKeeps(h, r, name);
        }
      }
    }
  }

  lemma MissKeeps(h: Heap, r: ObjectRef, name: string)
    requires Valid(h)
    ensures Valid(AttributeGot(h, r, name).0) && AttributeGot(h, r, name).0.shapes == h.shapes
  {
    if Get(h, r).Ok? && Get(h, r).value.Instance? && Position(Names(Get(h, r).value.fields), name).None? {
      var class_ := Get(h, Get(h, r).value.class_);
      if class_.Ok? && class_.value.ClassObject? && name in class_.value.methods {
        AllocatedValid(h, BoundMethod(r, class_.value.methods[name]));
      }
    }
  }

  // ------------------------------------------------------------------ whole programs

  // What a program does to the heap and to its sites, one per place in the code.
  datatype Step =
    | Allocate(obj: Obj)                    // anything but an instance
    | Remove(reference: ObjectRef)
    | Instantiate(class_: ObjectRef)
    | SetAttribute(owner: ObjectRef, name: string, value: Value)
    | GetAttribute(pc: nat, receiver: Value)

  datatype State = State(heap: Heap, sites: map<nat, Site>)

  // `names` is the attribute name at each place; it never changes.
  function After(names: map<nat, string>, s: State, step: Step): State {
    match step
    case Allocate(obj) => if obj.Instance? then s else s.(heap := Allocated(s.heap, obj).0)
    case Remove(r) => s.(heap := Removed(s.heap, r).0)
    case Instantiate(class_) => s.(heap := Instantiated(s.heap, class_).0)
    case SetAttribute(owner, name, v) => s.(heap := AttributeSet(s.heap, owner, name, v).0)
    case GetAttribute(pc, receiver) =>
      if pc in names && pc in s.sites then
        var (heap, site, _) := Prepared(s.heap, s.sites[pc], receiver, names[pc]);
        State(heap, s.sites[pc := site])
      else s
  }

  ghost predicate Right(names: map<nat, string>, s: State) {
    && Valid(s.heap)
    && forall pc :: pc in s.sites && pc in names ==> SiteHolds(s.heap.shapes, names[pc], s.sites[pc])
  }

  lemma InstantiatedGrows(h: Heap, class_: ObjectRef)
    ensures ShapesGrow(h.shapes, Instantiated(h, class_).0.shapes)
  {
  }

  lemma AttributeSetGrows(h: Heap, owner: ObjectRef, name: string, v: Value)
    ensures ShapesGrow(h.shapes, AttributeSet(h, owner, name, v).0.shapes)
  {
  }

  lemma OthersKeepShapes(h: Heap, obj: Obj, r: ObjectRef)
    ensures Allocated(h, obj).0.shapes == h.shapes && Removed(h, r).0.shapes == h.shapes
  {
  }

  // The shape key that a step asks for.
  function KeyOf(h: Heap, step: Step): Option<ShapeKey> {
    match step
    case Instantiate(class_) => InstanceKey(h, class_)
    case SetAttribute(owner, name, v) => AttributeKey(h, owner, name, v)
    case _ => None
  }

  predicate KeepsShapes(h: Heap, step: Step) {
    KeyOf(h, step).None? || HasOwnShape(h, KeyOf(h, step).value)
  }

  lemma StepGrows(names: map<nat, string>, s: State, step: Step)
    requires Right(names, s)
    ensures Valid(After(names, s, step).heap) <==> KeepsShapes(s.heap, step)
    ensures ShapesGrow(s.heap.shapes, After(names, s, step).heap.shapes)
  {
    hide Allocated, Removed, Instantiated, AttributeSet, Prepared, Valid, SiteHolds, Uncached, HasOwnShape, InstanceKey, AttributeKey;
    match step
    case Allocate(obj) =>
      if !obj.Instance? {
        AllocatedValid(s.heap, obj);
        OthersKeepShapes(s.heap, obj, ObjectRef(0, 0, 0));
      }
    case Remove(r) =>
      RemovedValid(s.heap, r);
      OthersKeepShapes(s.heap, OtherObject(0), r);
    case Instantiate(class_) =>
      InstantiatedValid(s.heap, class_);
      InstantiatedGrows(s.heap, class_);
    case SetAttribute(owner, name, v) =>
      AttributeSetValid(s.heap, owner, name, v);
      AttributeSetGrows(s.heap, owner, name, v);
    case GetAttribute(pc, receiver) =>
      if pc in names && pc in s.sites {
        PreparedIsUncached(s.heap, s.sites[pc], receiver, names[pc]);
        UncachedGrows(s.heap, receiver, names[pc]);
      }
  }

  lemma UncachedGrows(h: Heap, receiver: Value, name: string)
    requires Valid(h)
    ensures Uncached(h, receiver, name).0.shapes == h.shapes
  {
    if receiver.Object? {
      MissKeeps(h, receiver.reference, name);
    }
  }

  // A step keeps the heap and all sites right exactly when the shape that it asks
  // for, if any, is known or gets an id that no other shape has.
  lemma StepKeepsRightExactly(names: map<nat, string>, s: State, step: Step)
    requires Right(names, s)
    ensures Right(names, After(names, s, step)) <==> KeepsShapes(s.heap, step)
  {
    hide HasOwnShape, KeyOf, Prepared, Valid, SiteHolds, Uncached;
    StepGrows(names, s, step);
    var s' := After(names, s, step);
    forall pc | pc in s'.sites && pc in names ensures SiteHolds(s'.heap.shapes, names[pc], s'.sites[pc]) {
      if step.GetAttribute? && step.pc == pc {
        PreparedIsUncached(s.heap, s.sites[pc], step.receiver, names[pc]);
      } else {
        SiteStaysRight(s.heap.shapes, s'.heap.shapes, names[pc], s.sites[pc]);
      }
    }
  }

  // As long as the counter counts, that is every step.
  lemma CountingKeepsShapes(h: Heap, step: Step)
    requires Valid(h) && h.nextShape < 0xFFFF_FFFF_FFFF_FFFF
    ensures KeepsShapes(h, step)
  {
    if KeyOf(h, step).Some? {
      CountingHasShapes(h, KeyOf(h, step).value);
    }
  }

  // In every state that a program reaches without sharing a shape id, each access
  // through a site answers what the linear search answers.
  lemma {:induction false} SitesAlwaysAgree(names: map<nat, string>, states: seq<State>, steps: seq<Step>, n: nat)
    requires |states| == |steps| + 1 && n <= |steps|
    requires Right(names, states[0])
    requires forall i :: 0 <= i < |steps| ==> states[i + 1] == After(names, states[i], steps[i])
    requires forall i :: 0 <= i < n ==> KeepsShapes(states[i].heap, steps[i])
    ensures Right(names, states[n])
    ensures forall pc, receiver :: pc in states[n].sites && pc in names ==>
      var (heap, _, answer) := Prepared(states[n].heap, states[n].sites[pc], receiver, names[pc]);
      (heap, answer) == Uncached(states[n].heap, receiver, names[pc])
  {
    if n > 0 {
      SitesAlwaysAgree(names, states, steps, n - 1);
      StepKeepsRightExactly(names, states[n - 1], steps[n - 1]);
    }
    forall pc, receiver | pc in states[n].sites && pc in names
      ensures var (heap, _, answer) := Prepared(states[n].heap, states[n].sites[pc], receiver, names[pc]);
        (heap, answer) == Uncached(states[n].heap, receiver, names[pc])
    {
      PreparedIsUncached(states[n].heap, states[n].sites[pc], receiver, names[pc]);
    }
  }

  // A program starts with an empty heap and empty sites.
  lemma StartIsRight(names: map<nat, string>, heapId: nat, sites: map<nat, Site>)
    requires forall pc :: pc in sites ==> sites[pc] == EmptySite()
    ensures Right(names, State(Heap(heapId, [], [], map[], 1), sites))
  {
  }

  // At shape exhaustion the agreement is lost: after two instances get their first
  // field, under different names, a site that saw one answers with the other's.
  lemma ExhaustedSiteIsWrong(h: Heap, one: ObjectRef, two: ObjectRef, v: int, w: int)
    requires h.nextShape == SHAPE_MAX && one != two
    requires IsLive(h, one) && Get(h, one).value.Instance? && Get(h, one).value.fields == []
    requires IsLive(h, two) && Get(h, two).value.Instance? && Get(h, two).value.fields == []
    requires (Get(h, one).value.classId, ["a"]) !in h.shapes && (Get(h, two).value.classId, ["b"]) !in h.shapes
    ensures var h1 := AttributeSet(h, one, "a", SmallInt(v)).0;
      var h2 := AttributeSet(h1, two, "b", SmallInt(w)).0;
      var (_, site, first) := Prepared(h2, EmptySite(), Object(one), "a");
      && first == Ok(SmallInt(v))
      && Prepared(h2, site, Object(two), "a").2 == Ok(SmallInt(w))
      && LookupField(h2, two, "a") == Ok(None)
  {
    var h1 := FirstField(h, one, "a", v);
    assert Get(h1, two) == Get(h, two);
    var h2 := FirstField(h1, two, "b", w);
    assert Get(h2, one) == Get(h1, one);
    assert ["b"][1..] == [] && Position(["a"], "a") == Some(0) && Position(["b"], "a") == None;
  }

  // Such a heap is valid: one class, two instances without fields, a used-up counter.
  lemma ExhaustedHeap(heapId: nat, classId: nat) returns (h: Heap, one: ObjectRef, two: ObjectRef)
    ensures Valid(h) && h.nextShape == 0xFFFF_FFFF_FFFF_FFFF && one != two
    ensures Get(h, one).Ok? && Get(h, one).value.Instance? && Get(h, one).value.fields == []
    ensures Get(h, two).Ok? && Get(h, two).value.Instance? && Get(h, two).value.fields == []
    ensures (Get(h, one).value.classId, ["a"]) !in h.shapes && (Get(h, two).value.classId, ["b"]) !in h.shapes
  {
    var class_ := ObjectRef(heapId, 0, 0);
    one, two := ObjectRef(heapId, 1, 0), ObjectRef(heapId, 2, 0);
    var instance := Instance(class_, classId, 1, []);
    h := Heap(heapId, [Slot(0, Some(ClassObject(classId, map[]))), Slot(0, Some(instance)), Slot(0, Some(instance))],
              [], map[(classId, []) := 1], SHAPE_MAX);
    assert Names([]) == [];
    forall r | IsLive(h, r) ensures Shaped(h.shapes, Get(h, r).value) {
      assert r.slot == 0 || r.slot == 1 || r.slot == 2;
    }
    assert ["a"] != [] && ["b"] != [];
  }

  // At exhaustion the first field of an instance gives it the last shape id.
  lemma FirstField(h: Heap, r: ObjectRef, name: string, v: int) returns (h': Heap)
    requires h.nextShape == SHAPE_MAX && IsLive(h, r) && Get(h, r).value.Instance? && Get(h, r).value.fields == []
    requires (Get(h, r).value.classId, [name]) !in h.shapes
    ensures h' == AttributeSet(h, r, name, SmallInt(v)).0
    ensures h'.nextShape == SHAPE_MAX && h'.shapes == h.shapes[(Get(h, r).value.classId, [name]) := SHAPE_MAX]
    ensures Get(h', r) == Ok(Get(h, r).value.(shape := SHAPE_MAX, fields := [(name, SmallInt(v))]))
    ensures Names([(name, SmallInt(v))]) == [name]
    ensures forall x :: x != r ==> Get(h', x) == Get(h, x)
  {
    var obj := Get(h, r).value;
    assert Names(obj.fields) == [] && [] + [name] == [name] && Names([(name, SmallInt(v))]) == [name];
    assert Position([], name) == None;
    var (h1, shape) := Interned(h, (obj.classId, [name]));
    h' := Written(h1, r, obj.(shape := shape, fields := obj.fields + [(name, SmallInt(v))]));
    assert obj.fields + [(name, SmallInt(v))] == [(name, SmallInt(v))];
    WrittenOthers(h1, r, obj.(shape := shape, fields := [(name, SmallInt(v))]));
    forall x | x != r ensures Get(h', x) == Get(h, x) {
      assert Get(h1, x) == Get(h, x);
    }
  }
}
