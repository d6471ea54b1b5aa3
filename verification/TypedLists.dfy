/**
  Lists of value words in the adaptive heap (src/adaptive_v2/lists.rs) and the
  leases of their integers that native code reads. The version is odd while the
  integers are rebuilt and even otherwise.
 */
module TypedLists {
  import opened MachineWords
  import opened Wrappers
  import opened Handles
  import opened HeapModel
  import opened GcHeaps
  import opened ValueWords

  datatype Storage =
    | NoItems
    | Integers(integers: seq<(int, Word)>)
    | FloatItems(floats: seq<(nat, Word)>)
    | Generic(words: seq<Word>)

  datatype ValueClass = ImmediateInteger(i: int) | FloatClass(bits: nat) | GenericClass

  datatype ListError = HeapFailed(error: GcError) | IndexOutOfBounds

  // How a word is stored: unboxed integers and floats apart, everything else together.
  function Classify(h: Heap, w: Word): Result<ValueClass, GcError> {
    match DecodeScalar(h, w)
    case Ok(Integer(i)) => Ok(if IsBoxed(w) then GenericClass else ImmediateInteger(i))
    case Ok(FloatBits(bits)) => Ok(FloatClass(bits))
    case Err(NotScalar) => Ok(GenericClass)
    case Err(error) => Err(error)
  }

  function FirstOf<T>(pairs: seq<(T, Word)>): seq<T> {
    seq(|pairs|, k requires 0 <= k < |pairs| => pairs[k].0)
  }

  function SecondOf<T>(pairs: seq<(T, Word)>): seq<Word> {
    seq(|pairs|, k requires 0 <= k < |pairs| => pairs[k].1)
  }

  // The words of the list, whatever the storage.
  function Words(s: Storage): seq<Word> {
    match s
    case NoItems => []
    case Integers(pairs) => SecondOf(pairs)
    case FloatItems(pairs) => SecondOf(pairs)
    case Generic(words) => words
  }

  // A word that decodes to the integer in every heap, being no box.
  predicate IsIntegerWord(w: Word, i: int) {
    w / TWO_48 == INTEGER_TAG && i == (if w % TWO_47 < TWO_46 then w % TWO_47 else w % TWO_47 - TWO_47)
  }

  lemma IntegerWordDecodes(h: Heap, w: Word, i: int)
    requires IsIntegerWord(w, i)
    ensures DecodeScalar(h, w) == Ok(Integer(i)) && Classify(h, w) == Ok(ImmediateInteger(i))
  {
  }

  lemma ClassifiedInteger(h: Heap, w: Word, i: int)
    requires Classify(h, w) == Ok(ImmediateInteger(i))
    ensures IsIntegerWord(w, i)
  {
  }

  // The state of a list; `mutations` counts the successful ones so far.
  datatype ListState = ListState(storage: Storage, epoch: nat, version: nat, natives: seq<int>, mutations: nat)

  function VersionAfter(mutations: nat): nat {
    2 * (mutations % TWO_63)
  }

  function NativesOf(s: Storage): seq<int> {
    if s.Integers? then FirstOf(s.integers) else []
  }

  predicate ValidStorage(s: Storage) {
    s.Integers? ==> forall k :: 0 <= k < |s.integers| ==> IsIntegerWord(s.integers[k].1, s.integers[k].0)
  }

  predicate ValidState(s: ListState) {
    && ValidStorage(s.storage)
    && s.version == VersionAfter(s.mutations)
    && s.natives == NativesOf(s.storage)
  }

  function Empty_(): ListState {
    ListState(NoItems, 0, 0, [], 0)
  }

  // After every successful mutation: a new epoch, a new even version, new integers.
  function Refreshed(s: ListState, storage: Storage): ListState {
    ListState(storage, (s.epoch + 1) % TWO_64, (s.version + 2) % TWO_64, NativesOf(storage), s.mutations + 1)
  }

  lemma RefreshedValid(s: ListState, storage: Storage)
    requires ValidState(s) && ValidStorage(storage)
    ensures ValidState(Refreshed(s, storage))
  {
  }

  // ---------------------------------------------------------------------- operations

  function Widened(s: Storage): Storage {
    Generic(Words(s))
  }

  function Pushed(s: Storage, c: ValueClass, w: Word): Storage {
    if s.NoItems? && c.ImmediateInteger? then Integers([(c.i, w)])
    else if s.NoItems? && c.FloatClass? then FloatItems([(c.bits, w)])
    else if s.Integers? && c.ImmediateInteger? then Integers(s.integers + [(c.i, w)])
    else if s.FloatItems? && c.FloatClass? then FloatItems(s.floats + [(c.bits, w)])
    else Generic(Words(s) + [w])
  }

  function Assigned(s: Storage, index: nat, c: ValueClass, w: Word): Storage
    requires index < |Words(s)|
  {
    if s.Integers? && c.ImmediateInteger? then Integers(s.integers[index := (c.i, w)])
    else if s.FloatItems? && c.FloatClass? then FloatItems(s.floats[index := (c.bits, w)])
    else Generic(Words(s)[index := w])
  }

  function Inserted(s: Storage, index: nat, w: Word): Storage
    requires index <= |Words(s)|
  {
    Generic(Words(s)[..index] + [w] + Words(s)[index..])
  }

  function Removed(s: Storage, index: nat): Storage
    requires index < |Words(s)|
  {
    match s
    case NoItems => s
    case Integers(pairs) => Integers(pairs[..index] + pairs[index + 1..])
    case FloatItems(pairs) => FloatItems(pairs[..index] + pairs[index + 1..])
    case Generic(words) => Generic(words[..index] + words[index + 1..])
  }

  lemma SecondSlices<T>(pairs: seq<(T, Word)>, index: nat)
    requires index < |pairs|
    ensures SecondOf(pairs[..index] + pairs[index + 1..]) == SecondOf(pairs)[..index] + SecondOf(pairs)[index + 1..]
  {
  }

  // What the operations do to the words, and that integers stay integers.
  lemma PushedWords(s: Storage, c: ValueClass, w: Word)
    requires ValidStorage(s) && (c.ImmediateInteger? ==> IsIntegerWord(w, c.i))
    ensures Words(Pushed(s, c, w)) == Words(s) + [w] && ValidStorage(Pushed(s, c, w))
  {
    var p := Pushed(s, c, w);
    assert Words(p) == Words(s) + [w];
  }

  lemma AssignedWords(s: Storage, index: nat, c: ValueClass, w: Word)
    requires ValidStorage(s) && index < |Words(s)| && (c.ImmediateInteger? ==> IsIntegerWord(w, c.i))
    ensures Words(Assigned(s, index, c, w)) == Words(s)[index := w] && ValidStorage(Assigned(s, index, c, w))
  {
    var a := Assigned(s, index, c, w);
    assert Words(a) == Words(s)[index := w];
  }

  lemma RemovedWords(s: Storage, index: nat)
    requires ValidStorage(s) && index < |Words(s)|
    ensures Words(Removed(s, index)) == Words(s)[..index] + Words(s)[index + 1..] && ValidStorage(Removed(s, index))
  {
    match s
    case NoItems =>
    case Integers(pairs) => SecondSlices(pairs, index);
    case FloatItems(pairs) => SecondSlices(pairs, index);
    case Generic(words) =>
  }

  // -------------------------------------------------- which storage a list ends up with

  // A word is an unboxed integer exactly when it carries the integer's tag.
  lemma ImmediateExactly(h: Heap, w: Word)
    ensures (exists i :: Classify(h, w) == Ok(ImmediateInteger(i))) <==> w / TWO_48 == INTEGER_TAG
  {
    if w / TWO_48 == INTEGER_TAG {
      IntegerWordDecodes(h, w, if w % TWO_47 < TWO_46 then w % TWO_47 else w % TWO_47 - TWO_47);
    }
  }

  // What a word is classified as: an unboxed integer, a float that the word is, or
  // something else; only a handle that does not resolve is an error.
  lemma ClassifyExactly(h: Heap, w: Word)
    ensures Classify(h, w).Err? <==> DecodeScalar(h, w).Err? && DecodeScalar(h, w).error != NotScalar
    ensures Classify(h, w) == Ok(GenericClass) <==>
      DecodeScalar(h, w) == Err(NotScalar) || (DecodeScalar(h, w).Ok? && DecodeScalar(h, w).value.Integer? && IsBoxed(w))
    ensures forall bits :: Classify(h, w) == Ok(FloatClass(bits)) <==> DecodeScalar(h, w) == Ok(FloatBits(bits))
    ensures forall i :: Classify(h, w) == Ok(ImmediateInteger(i)) <==> DecodeScalar(h, w) == Ok(Integer(i)) && !IsBoxed(w)
  {
  }

  function Built(items: seq<(ValueClass, Word)>): Storage {
    if items == [] then NoItems
    else Pushed(Built(items[..|items| - 1]), items[|items| - 1].0, items[|items| - 1].1)
  }

  predicate AllIntegers(items: seq<(ValueClass, Word)>) {
    forall k :: 0 <= k < |items| ==> items[k].0.ImmediateInteger?
  }

  predicate AllFloats(items: seq<(ValueClass, Word)>) {
    forall k :: 0 <= k < |items| ==> items[k].0.FloatClass?
  }

  ghost predicate BuiltAs(items: seq<(ValueClass, Word)>, s: Storage) {
    && (s.NoItems? <==> items == [])
    && (s.Integers? <==> items != [] && AllIntegers(items))
    && (s.FloatItems? <==> items != [] && AllFloats(items))
    && (s.Integers? ==> |s.integers| == |items| && forall k :: 0 <= k < |items| ==> s.integers[k] == (items[k].0.i, items[k].1))
    && (s.FloatItems? ==> |s.floats| == |items| && forall k :: 0 <= k < |items| ==> s.floats[k] == (items[k].0.bits, items[k].1))
  }

  lemma AllAppend(items: seq<(ValueClass, Word)>, item: (ValueClass, Word))
    ensures AllIntegers(items + [item]) <==> AllIntegers(items) && item.0.ImmediateInteger?
    ensures AllFloats(items + [item]) <==> AllFloats(items) && item.0.FloatClass?
  {
    var more := items + [item];
    assert more[|items|] == item;
    assert forall k :: 0 <= k < |items| ==> more[k] == items[k];
  }

  lemma BuiltNext(items: seq<(ValueClass, Word)>, s: Storage, item: (ValueClass, Word))
    requires BuiltAs(items, s)
    ensures BuiltAs(items + [item], Pushed(s, item.0, item.1))
  {
    AllAppend(items, item);
    if items != [] {
      assert !(AllIntegers(items) && AllFloats(items)) by {
        assert items[0].0.ImmediateInteger? ==> !items[0].0.FloatClass?;
      }
    }
    hide AllIntegers, AllFloats, Words;
  }

  // Appending to an empty list keeps integers apart exactly as long as all words are
  // unboxed integers, and floats as long as all are floats.
  lemma {:induction false} BuiltExactly(items: seq<(ValueClass, Word)>)
    ensures var s := Built(items);
      && (s.NoItems? <==> items == [])
      && (s.Integers? <==> items != [] && forall k :: 0 <= k < |items| ==> items[k].0.ImmediateInteger?)
      && (s.FloatItems? <==> items != [] && forall k :: 0 <= k < |items| ==> items[k].0.FloatClass?)
      && (s.Integers? ==> |s.integers| == |items| && forall k :: 0 <= k < |items| ==> s.integers[k] == (items[k].0.i, items[k].1))
      && (s.FloatItems? ==> |s.floats| == |items| && forall k :: 0 <= k < |items| ==> s.floats[k] == (items[k].0.bits, items[k].1))
    ensures BuiltAs(items, Built(items))
    decreases |items|
  {
    if items != [] {
      var before, last := items[..|items| - 1], items[|items| - 1];
      BuiltExactly(before);
      BuiltNext(before, Built(before), last);
      assert items == before + [last];
    }
  }

  lemma {:induction false} BuiltWords(items: seq<(ValueClass, Word)>)
    ensures Words(Built(items)) == SecondOf(items)
    decreases |items|
  {
    if items != [] {
      var before, last := items[..|items| - 1], items[|items| - 1];
      BuiltWords(before);
      var s := Built(before);
      assert Words(Pushed(s, last.0, last.1)) == Words(s) + [last.1];
      assert SecondOf(items) == SecondOf(before) + [last.1];
    }
  }

  // A replaced word keeps the integers apart exactly when it is one of them.
  lemma AssignedExactly(s: Storage, index: nat, c: ValueClass, w: Word)
    requires index < |Words(s)|
    ensures var a := Assigned(s, index, c, w);
      && (a.Integers? <==> s.Integers? && c.ImmediateInteger?)
      && (a.FloatItems? <==> s.FloatItems? && c.FloatClass?)
      && (a.Integers? ==> FirstOf(a.integers) == FirstOf(s.integers)[index := c.i])
      && (a.FloatItems? ==> FirstOf(a.floats) == FirstOf(s.floats)[index := c.bits])
  {
  }

  // A removed word leaves the others stored as they were.
  lemma RemovedExactly(s: Storage, index: nat)
    requires index < |Words(s)|
    ensures var r := Removed(s, index);
      && (r.Integers? <==> s.Integers?) && (r.FloatItems? <==> s.FloatItems?)
      && (r.Integers? ==> FirstOf(r.integers) == FirstOf(s.integers)[..index] + FirstOf(s.integers)[index + 1..])
      && (r.FloatItems? ==> FirstOf(r.floats) == FirstOf(s.floats)[..index] + FirstOf(s.floats)[index + 1..])
  {
  }

  // ------------------------------------------------------------------------- leases

  datatype Lease = Lease(owner: StableHandle, layoutEpoch: nat, version: nat, values: seq<int>)

  predicate IsCurrent(l: Lease, version: nat) {
    l.version % 2 == 0 && version == l.version
  }

  function Leased(owner: StableHandle, s: ListState): Option<Lease> {
    if s.storage.Integers? && s.version % 2 == 0 then Some(Lease(owner, s.epoch, s.version, s.natives)) else None
  }

  // One successful mutation after another; failed ones change nothing.
  predicate Mutated(s: ListState, s': ListState) {
    s' == s || s' == Refreshed(s, s'.storage)
  }

  lemma {:induction false} MutationsKeep(states: seq<ListState>, n: nat)
    requires n < |states| && ValidState(states[0])
    requires forall i :: 0 <= i < |states| ==> ValidStorage(states[i].storage)
    requires forall i :: 0 <= i < |states| - 1 ==> Mutated(states[i], states[i + 1])
    ensures ValidState(states[n]) && states[0].mutations <= states[n].mutations
    ensures states[n].mutations == states[0].mutations ==> states[n] == states[0]
  {
    if n > 0 {
      MutationsKeep(states, n - 1);
      if states[n] != states[n - 1] {
        RefreshedValid(states[n - 1], states[n].storage);
      }
    }
  }

  // A lease is current exactly when the number of mutations since it was taken is a
  // multiple of 2^63; below that, exactly when there was none.
  lemma LeaseIsCurrentExactly(states: seq<ListState>, n: nat, owner: StableHandle)
    requires n < |states| && ValidState(states[0]) && Leased(owner, states[0]).Some?
    requires forall i :: 0 <= i < |states| ==> ValidStorage(states[i].storage)
    requires forall i :: 0 <= i < |states| - 1 ==> Mutated(states[i], states[i + 1])
    ensures states[0].mutations <= states[n].mutations
    ensures var since := states[n].mutations - states[0].mutations;
      && (IsCurrent(Leased(owner, states[0]).value, states[n].version) <==> since % TWO_63 == 0)
      && (since < TWO_63 ==> (IsCurrent(Leased(owner, states[0]).value, states[n].version) <==> since == 0))
  {
    MutationsKeep(states, n);
    SameVersion(states[0].mutations, states[n].mutations - states[0].mutations);
  }

  lemma SameVersion(mutations: nat, since: nat)
    ensures VersionAfter(mutations) == VersionAfter(mutations + since) <==> since % TWO_63 == 0
    ensures VersionAfter(mutations) % 2 == 0
  {
    assert (mutations + since) % TWO_63 ==
      if mutations % TWO_63 + since % TWO_63 < TWO_63 then mutations % TWO_63 + since % TWO_63
      else mutations % TWO_63 + since % TWO_63 - TWO_63;
  }

  // While it is current, its array is what the words of the list decode to in any heap.
  lemma CurrentLeaseDecodes(h: Heap, states: seq<ListState>, n: nat, owner: StableHandle, k: nat)
    requires n < |states| && ValidState(states[0]) && Leased(owner, states[0]).Some?
    requires forall i :: 0 <= i < |states| ==> ValidStorage(states[i].storage)
    requires forall i :: 0 <= i < |states| - 1 ==> Mutated(states[i], states[i + 1])
    requires states[n].mutations < states[0].mutations + TWO_63
    requires IsCurrent(Leased(owner, states[0]).value, states[n].version)
    ensures |Words(states[n].storage)| == |Leased(owner, states[0]).value.values|
    ensures k < |Words(states[n].storage)| ==>
      DecodeScalar(h, Words(states[n].storage)[k]) == Ok(Integer(Leased(owner, states[0]).value.values[k]))
  {
    LeaseIsCurrentExactly(states, n, owner);
    MutationsKeep(states, n);
    var pairs := states[0].storage.integers;
    if k < |pairs| {
      IntegerWordDecodes(h, pairs[k].1, pairs[k].0);
    }
  }

  // ------------------------------------------------------------- edges of the list

  // A handle in the list becomes an edge from the list's own object.
  function Recorded(h: Heap, owner: StableHandle, w: Word): (Heap, Result<(), GcError>) {
    match AsHandle(h.table.runtime, w)
    case Some(target) => Stored(h, owner, target)
    case None => (h, Ok(()))
  }

  // A word whose edge could be recorded can be classified, so that no edge is left
  // behind by a word that the list refuses.
  lemma RecordedClassifies(h: Heap, owner: StableHandle, w: Word)
    requires h.Valid()
    ensures Recorded(h, owner, w).1.Ok? ==> Classify(Recorded(h, owner, w).0, w).Ok?
    ensures Recorded(h, owner, w).1.Err? ==> Recorded(h, owner, w).0 == h
  {
    if IsBoxed(w) {
      var target := AsHandle(h.table.runtime, w).value;
      StoredValid(h, owner, target);
      StoredCorrect(h, owner, target);
      if h.table.IsLive(owner) && h.table.IsLive(target) {
        var h' := Stored(h, owner, target).0;
        assert h'.table.IsLive(target);
        assert CellIn(h'.nursery, h'.oldSpace, h'.table.At(target)).Some?;
      }
    }
  }

  // ------------------------------------------------------------------- the list itself

  class TypedList {
    const owner: StableHandle
    var epoch: nat
    var storage: Storage
    var nativeVersion: nat
    var nativeIntegers: seq<int>
    ghost var mutations: nat

    ghost function View(): ListState
      reads this
    {
      ListState(storage, epoch, nativeVersion, nativeIntegers, mutations)
    }

    constructor (owner: StableHandle)
      ensures View() == Empty_() && ValidState(View()) && this.owner == owner
    {
      this.owner := owner;
      epoch, storage, nativeVersion, nativeIntegers, mutations := 0, NoItems, 0, [], 0;
    }

    // A handle in the list is an edge from the list's own object.
    method RecordReference(heap: GcHeap, w: Word) returns (r: Result<(), GcError>)
      requires heap.Valid()
      modifies heap
      ensures heap.Valid()
      ensures (heap.View(), r) == Recorded(old(heap.View()), owner, w)
    {
      match AsHandle(heap.handles.View().runtime, w)
      case Some(target) => r := heap.StoreReference(owner, target);
      case None => r := Ok(());
    }

    method RefreshNativeIntegers()
      modifies this`nativeVersion, this`nativeIntegers
      ensures nativeVersion == (old(nativeVersion) + 2) % TWO_64 && nativeIntegers == NativesOf(storage)
    {
      nativeVersion := (nativeVersion + 1) % TWO_64;
      nativeIntegers := if storage.Integers? then FirstOf(storage.integers) else [];
      nativeVersion := (nativeVersion + 1) % TWO_64;
    }

    // The end of every successful mutation.
    method Replace(next: Storage)
      requires ValidState(View()) && ValidStorage(next)
      modifies this
      ensures View() == Refreshed(old(View()), next) && ValidState(View())
    {
      RefreshedValid(View(), next);
      storage := next;
      epoch := (epoch + 1) % TWO_64;
      RefreshNativeIntegers();
      mutations := mutations + 1;
    }

    method Push(heap: GcHeap, w: Word) returns (r: Result<(), ListError>)
      requires heap.Valid() && ValidState(View())
      modifies this, heap
      ensures heap.Valid() && ValidState(View()) && Mutated(old(View()), View())
      ensures r.Ok? ==> Words(storage) == old(Words(storage)) + [w] && mutations == old(mutations) + 1
      ensures r.Ok? ==> Classify(heap.View(), w).Ok? && storage == Pushed(old(storage), Classify(heap.View(), w).value, w)
      ensures r.Err? ==> View() == old(View()) && heap.View() == old(heap.View())
      ensures heap.View() == Recorded(old(heap.View()), owner, w).0
      ensures (r.Ok? <==> Recorded(old(heap.View()), owner, w).1.Ok?)
    {
      RecordedClassifies(heap.View(), owner, w);
      var recorded := RecordReference(heap, w);
      if recorded.Err? {
        return Err(HeapFailed(recorded.error));
      }
      var class_ := Classify(heap.View(), w); // succeeds, see RecordedClassifies
      if class_.value.ImmediateInteger? {
        ClassifiedInteger(heap.View(), w, class_.value.i);
      }
      PushedWords(storage, class_.value, w);
      Replace(Pushed(storage, class_.value, w));
      return Ok(());
    }

    method Get(index: nat) returns (r: Result<Word, ListError>)
      ensures r == if index < |Words(storage)| then Ok(Words(storage)[index]) else Err(IndexOutOfBounds)
    {
      if index < |Words(storage)| {
        return Ok(Words(storage)[index]);
      }
      return Err(IndexOutOfBounds);
    }

    method Set(heap: GcHeap, index: nat, w: Word) returns (r: Result<(), ListError>)
      requires heap.Valid() && ValidState(View())
      modifies this, heap
      ensures heap.Valid() && ValidState(View()) && Mutated(old(View()), View())
      ensures r.Ok? ==>
        index < |old(Words(storage))| && Words(storage) == old(Words(storage))[index := w] && mutations == old(mutations) + 1
      ensures r.Ok? ==>
        && index < |Words(old(storage))| && Classify(heap.View(), w).Ok?
        && storage == Assigned(old(storage), index, Classify(heap.View(), w).value, w)
      ensures r.Err? ==> View() == old(View()) && heap.View() == old(heap.View())
      ensures index < |old(Words(storage))| ==> heap.View() == Recorded(old(heap.View()), owner, w).0
      ensures index < |old(Words(storage))| ==> (r.Ok? <==> Recorded(old(heap.View()), owner, w).1.Ok?)
      ensures index >= |old(Words(storage))| ==> r == Err(IndexOutOfBounds)
    {
      if index >= |Words(storage)| {
        return Err(IndexOutOfBounds);
      }
      RecordedClassifies(heap.View(), owner, w);
      var recorded := RecordReference(heap, w);
      if recorded.Err? {
        return Err(HeapFailed(recorded.error));
      }
      var class_ := Classify(heap.View(), w); // succeeds, see RecordedClassifies
      if class_.value.ImmediateInteger? {
        ClassifiedInteger(heap.View(), w, class_.value.i);
      }
      AssignedWords(storage, index, class_.value, w);
      Replace(Assigned(storage, index, class_.value, w));
      return Ok(());
    }

    // An insertion always widens the storage.
    method Insert(heap: GcHeap, index: nat, w: Word) returns (r: Result<(), ListError>)
      requires heap.Valid() && ValidState(View())
      modifies this, heap
      ensures heap.Valid() && ValidState(View()) && Mutated(old(View()), View())
      ensures r.Ok? ==>
        && index <= |old(Words(storage))|
        && Words(storage) == old(Words(storage))[..index] + [w] + old(Words(storage))[index..]
        && mutations == old(mutations) + 1 && storage.Generic?
      ensures r.Err? ==> View() == old(View()) && heap.View() == old(heap.View())
      ensures index <= |old(Words(storage))| ==> heap.View() == Recorded(old(heap.View()), owner, w).0
      ensures index <= |old(Words(storage))| ==> (r.Ok? <==> Recorded(old(heap.View()), owner, w).1.Ok?)
      ensures index > |old(Words(storage))| ==> r == Err(IndexOutOfBounds)
    {
      if index > |Words(storage)| {
        return Err(IndexOutOfBounds);
      }
      RecordedClassifies(heap.View(), owner, w);
      var recorded := RecordReference(heap, w);
      if recorded.Err? {
        return Err(HeapFailed(recorded.error));
      }
      Replace(Inserted(Widened(storage), index, w));
      return Ok(());
    }

    method Remove(index: nat) returns (r: Result<Word, ListError>)
      requires ValidState(View())
      modifies this
      ensures ValidState(View()) && Mutated(old(View()), View())
      ensures index < |old(Words(storage))| ==>
        && r == Ok(old(Words(storage))[index]) && mutations == old(mutations) + 1
        && Words(storage) == old(Words(storage))[..index] + old(Words(storage))[index + 1..]
        && storage == Removed(old(storage), index)
      ensures index >= |old(Words(storage))| ==> r == Err(IndexOutOfBounds) && View() == old(View())
    {
      if index >= |Words(storage)| {
        return Err(IndexOutOfBounds);
      }
      r := Ok(Words(storage)[index]);
      RemovedWords(storage, index);
      Replace(Removed(storage, index));
    }

    // A lease of the integers, if there is nothing else in the list.
    method NativeIntegerLease() returns (lease: Option<Lease>)
      requires ValidState(View())
      ensures lease == Leased(owner, View())
      ensures lease.Some? <==> storage.Integers?
    {
      if !storage.Integers? {
        return None;
      }
      SameVersion(mutations, 0);
      var version := nativeVersion;
      if version % 2 != 0 {
        return None;
      }
      return Some(Lease(owner, epoch, version, nativeIntegers));
    }
  }
}
