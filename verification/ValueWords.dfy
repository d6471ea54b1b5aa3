/**
  NaN-boxed value words (src/adaptive_v2/value_word.rs). A word is a 64-bit
  number; the masks of the source cut it at bits 47 and 48, which is written
  here as division and remainder.
 */
module ValueWords {
  import opened MachineWords
  import opened Wrappers
  import opened Handles
  import opened Tracing
  import opened HeapModel
  import opened HeapRuns
  import opened GcHeaps

  const TWO_46: nat := 0x4000_0000_0000
  const TWO_47: nat := 0x8000_0000_0000
  const TWO_48: nat := 0x1_0000_0000_0000

  // The top 16 bits of a word.
  const INTEGER_TAG: nat := 0x7FFC
  const HANDLE_TAG: nat := 0x7FFD

  const IMMEDIATE_INTEGER_MIN: int := 0 - TWO_46
  const IMMEDIATE_INTEGER_MAX: int := TWO_46 - 1

  type Word = w: int | 0 <= w < TWO_64

  predicate IsImmediate(value: ScalarValue) {
    match value
    case Integer(i) => IMMEDIATE_INTEGER_MIN <= i <= IMMEDIATE_INTEGER_MAX
    case FloatBits(bits) => bits < TWO_64 && !IsNaN(bits)
  }

  function EncodeImmediate(value: ScalarValue): Word
    requires IsImmediate(value)
  {
    match value
    case Integer(i) => INTEGER_TAG * TWO_48 + i % TWO_47
    case FloatBits(bits) => bits
  }

  function FromHandle(handle: StableHandle): Word
    requires handle.slot < SLOT_LIMIT && handle.generation <= MAX_GENERATION
  {
    HANDLE_TAG * TWO_48 + handle.slot + handle.generation * SLOT_LIMIT
  }

  predicate IsBoxed(w: Word) {
    w / TWO_48 == HANDLE_TAG
  }

  // The handle that the low 48 bits of a word name in a runtime.
  function LocalHandle(runtime: nat, packed: nat): StableHandle {
    StableHandle(runtime, packed % SLOT_LIMIT, (packed / SLOT_LIMIT) % 0x1_0000)
  }

  function AsHandle(runtime: nat, w: Word): Option<StableHandle> {
    if IsBoxed(w) then Some(LocalHandle(runtime, w % TWO_48)) else None
  }

  function ScalarAt(h: Heap, handle: StableHandle): Result<ScalarValue, GcError> {
    match ObjectAt(h, handle)
    case Err(error) => Err(error)
    case Ok(obj) => if obj.scalar.Some? then Ok(obj.scalar.value) else Err(NotScalar)
  }

  function DecodeScalar(h: Heap, w: Word): Result<ScalarValue, GcError> {
    if w / TWO_48 == INTEGER_TAG then
      var payload := w % TWO_47;
      Ok(Integer(if payload < TWO_46 then payload else payload - TWO_47))
    else if w / TWO_48 == HANDLE_TAG then
      ScalarAt(h, LocalHandle(h.table.runtime, w % TWO_48))
    else
      Ok(FloatBits(w))
  }

  // An immediate decodes to itself in every heap and is never taken for a handle.
  lemma ImmediateRoundTrip(h: Heap, value: ScalarValue)
    requires IsImmediate(value)
    ensures DecodeScalar(h, EncodeImmediate(value)) == Ok(value)
    ensures !IsBoxed(EncodeImmediate(value))
  {
    match value
    case Integer(i) =>
      var payload := i % TWO_47;
      assert EncodeImmediate(value) / TWO_48 == INTEGER_TAG;
      assert EncodeImmediate(value) % TWO_47 == payload;
    case FloatBits(bits) =>
      if bits / TWO_48 == INTEGER_TAG || bits / TWO_48 == HANDLE_TAG {
        assert bits / TWO_52 == 0x7FF;
        assert bits % TWO_52 >= 0xC * TWO_48;
        assert IsNaN(bits);
      }
  }

  // An integer is kept in the word itself exactly when the 47 payload bits can hold it.
  lemma ImmediateExactly(h: Heap, i: int)
    ensures DecodeScalar(h, 0x7FFC_0000_0000_0000 + i % 0x8000_0000_0000) == Ok(Integer(i)) <==> IsImmediate(Integer(i))
  {
    var w := INTEGER_TAG * TWO_48 + i % TWO_47;
    assert w / TWO_48 == INTEGER_TAG && w % TWO_47 == i % TWO_47;
  }

  // Two different immediates never share a word.
  lemma ImmediatesDiffer(a: ScalarValue, b: ScalarValue)
    requires IsImmediate(a) && IsImmediate(b) && a != b
    ensures EncodeImmediate(a) != EncodeImmediate(b)
  {
    var h := Heap(Empty(0, 0), [], [], map[], {}, {}, false, 0);
    ImmediateRoundTrip(h, a);
    ImmediateRoundTrip(h, b);
  }

  // A handle survives packing into a word, and its word is no NaN-free pattern.
  lemma HandleRoundTrip(handle: StableHandle)
    requires handle.slot < SLOT_LIMIT && handle.generation <= MAX_GENERATION
    ensures AsHandle(handle.runtime, FromHandle(handle)) == Some(handle)
    ensures IsNaN(FromHandle(handle))
  {
    var packed := handle.slot + handle.generation * SLOT_LIMIT;
    assert packed < TWO_48;
    assert FromHandle(handle) / TWO_48 == HANDLE_TAG && FromHandle(handle) % TWO_48 == packed;
    assert FromHandle(handle) / TWO_52 == 0x7FF;
    assert FromHandle(handle) % TWO_52 == 0xD * TWO_48 + packed;
  }

  // Every payload of 48 bits is a handle, and packing the handle gives the word again.
  lemma PackingIsOnto(runtime: nat, w: Word)
    requires 0x7FFD_0000_0000_0000 <= w <= 0x7FFD_FFFF_FFFF_FFFF
    ensures var handle := AsHandle(runtime, w);
      && handle.Some? && handle.value.runtime == runtime
      && handle.value.slot < SLOT_LIMIT && handle.value.generation <= MAX_GENERATION && FromHandle(handle.value) == w
  {
    var packed := w % TWO_48;
    assert w == HANDLE_TAG * TWO_48 + packed;
    assert (packed / SLOT_LIMIT) % 0x1_0000 == packed / SLOT_LIMIT;
  }

  // Words of the three kinds never coincide.
  lemma KindsDisjoint(handle: StableHandle, value: ScalarValue)
    requires handle.slot < SLOT_LIMIT && handle.generation <= MAX_GENERATION && IsImmediate(value)
    ensures FromHandle(handle) != EncodeImmediate(value)
  {
    HandleRoundTrip(handle);
    ImmediateRoundTrip(Heap(Empty(0, 0), [], [], map[], {}, {}, false, 0), value);
  }

  // What a word stands for in a heap: an immediate, or a pinned box holding the scalar.
  ghost predicate Represents(h: Heap, w: Word, value: ScalarValue) {
    if IsImmediate(value) then w == EncodeImmediate(value)
    else
      exists handle: StableHandle ::
        && handle.slot < SLOT_LIMIT && handle.generation <= MAX_GENERATION && handle.runtime == h.table.runtime
        && w == FromHandle(handle)
        && handle in h.pins && h.table.IsLive(handle) && h.ObjectOf(handle).scalar == Some(value)
  }

  lemma RepresentsDecodes(h: Heap, w: Word, value: ScalarValue)
    requires h.Valid() && Represents(h, w, value)
    ensures DecodeScalar(h, w) == Ok(value)
  {
    if IsImmediate(value) {
      ImmediateRoundTrip(h, value);
    } else {
      var handle: StableHandle :|
        && handle.slot < SLOT_LIMIT && handle.generation <= MAX_GENERATION && handle.runtime == h.table.runtime
        && w == FromHandle(handle)
        && handle in h.pins && h.table.IsLive(handle) && h.ObjectOf(handle).scalar == Some(value);
      BoxDecodes(h, w, handle);
    }
  }

  lemma BoxDecodes(h: Heap, w: Word, handle: StableHandle)
    requires h.Valid() && handle.slot < SLOT_LIMIT && handle.generation <= MAX_GENERATION && handle.runtime == h.table.runtime
    requires w == FromHandle(handle) && h.table.IsLive(handle)
    ensures DecodeScalar(h, w) == if h.ObjectOf(handle).scalar.Some? then Ok(h.ObjectOf(handle).scalar.value) else Err(NotScalar)
  {
    HandleRoundTrip(handle);
    ResolveIsLive(h.table, handle);
    assert CellIn(h.nursery, h.oldSpace, h.table.At(handle)).Some?;
    assert LocalHandle(h.table.runtime, w % TWO_48) == handle;
  }

  // A boxed word keeps decoding to its scalar through any run in which its box
  // stays pinned, whatever is allocated, stored or collected meanwhile.
  lemma EncodedForever(c: GcConfig, hs: seq<Heap>, steps: seq<Step>, n: nat, handle: StableHandle, w: Word, value: ScalarValue)
    requires IsRun(c, hs, steps) && hs[0].Valid() && n <= |steps|
    requires handle.slot < SLOT_LIMIT && handle.generation <= MAX_GENERATION && handle.runtime == hs[0].table.runtime
    requires w == FromHandle(handle) && hs[0].table.IsLive(handle) && hs[0].ObjectOf(handle).scalar == Some(value)
    requires forall i :: 0 <= i < n ==> handle in hs[i].pins
    ensures DecodeScalar(hs[n], w) == Ok(value)
  {
    SeedReachable(hs[0].Edges(), {handle}, handle);
    PinProtects(c, hs, steps, n, handle, handle);
    RunValid(c, hs, steps, n);
    BoxDecodes(hs[n], w, handle);
  }

  // A handle that was just placed in a valid heap fits into a word and is not pinned yet.
  lemma PlacedFits(h: Heap, obj: GcObject, limit: Option<nat>)
    requires h.Valid() && Placed(h, obj, limit).1.Ok?
    ensures var (h', r) := Placed(h, obj, limit);
      && r.value.slot < SLOT_LIMIT && r.value.generation <= MAX_GENERATION && r.value.runtime == h'.table.runtime
      && h'.table.IsLive(r.value) && h'.ObjectOf(r.value) == obj && r.value !in h'.pins
  {
    PlacedHandle(h, obj, limit);
    PlacedValid(h, obj, limit);
    PlacedObjects(h, obj, limit);
    ResolveIsLive(h.table, Placed(h, obj, limit).1.value);
  }

  // Encoding an integer or a float; what does not fit is boxed, pinned and named.
  // The heap's own allocation error is the only one it can return.
  method EncodeScalar(value: ScalarValue, heap: GcHeap) returns (r: Result<Word, GcError>)
    requires heap.Valid()
    modifies heap, heap.handles
    ensures heap.Valid()
    ensures r.Ok? ==> Represents(heap.View(), r.value, value)
    ensures IsImmediate(value) ==> r.Ok? && heap.View() == old(heap.View())
  {
    if IsImmediate(value) {
      return Ok(EncodeImmediate(value));
    }
    var boxed := heap.AllocateWithRoots(GcObject(Some(value), []), []);
    match boxed
    case Err(error) =>
      r := Err(error);
    case Ok(handle) =>
      ghost var h := heap.View();
      ghost var before: Heap :| before.Valid() && (h, boxed) == Placed(before, GcObject(Some(value), []), heap.config.allocationLimit);
      PlacedFits(before, GcObject(Some(value), []), heap.config.allocationLimit);
      PinnedCorrect(h, handle);
      var pinned := heap.PinHost(handle);
      assert heap.View().ObjectOf(handle) == h.ObjectOf(handle);
      match pinned {
        case Err(error) => r := Err(error);
        case Ok(_) => r := Ok(FromHandle(handle));
      }
  }
}
