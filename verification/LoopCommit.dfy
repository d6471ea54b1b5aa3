/**
  One native run of an object loop and its write-back
  (src/adaptive_v2/integration.rs, the two `_once` functions). Native code is an
  arbitrary function from snapshots to transactions; either every list holds its
  transaction afterwards or no list that existed before has changed.
 */
module LoopCommit {
  import opened MachineWords
  import opened Wrappers
  import opened Values
  import opened Sequences
  import opened ObjectHeaps
  import opened HeapObjects

  datatype Element = I64 | F64

  // What native code gets of a list, and what it makes of all of them: a
  // transaction for a list is its new words.
  datatype Snapshot = Snapshot(words: seq<int>, version: nat, mutates: bool)

  datatype NativeResult =
    | Ran(deopts: nat, transactions: seq<Option<seq<int>>>)
    | Refused
    | Failed

  // Everything that is not the heap: whether inputs can be passed and are accepted,
  // what the native code does, how an integer widens, how an object is named, and
  // whether the registers can be read back.
  datatype Native = Native(
    storages: seq<(nat, bool, Element)>,
    splits: bool,
    encode: ObjectRef -> Option<int>,
    accepts: seq<Value> -> bool,
    run: (seq<Value>, seq<Snapshot>, seq<Snapshot>) -> NativeResult,
    widen: int -> nat,
    resumes: bool)

  datatype LoopResult = Executed | LoopFailed

  // ---------------------------------------------------------------- fixed storages

  datatype LoopState = LoopState(reference: ObjectRef, words: seq<int>, version: nat, float: bool, widened: bool, mutates: bool)

  // The words of a list that holds only integers, or only floats.
  function IntegerWords(obj: Obj): Option<seq<int>> {
    if !obj.List? then None
    else if obj.items.Ints? then Some(obj.items.ints)
    else if obj.items.Empty? then Some([])
    else None
  }

  function FloatWordsOf(obj: Obj): Option<seq<int>> {
    if !obj.List? then None
    else if obj.items.Floats? then Some(seq(|obj.items.floats|, i requires 0 <= i < |obj.items.floats| => Signed64(obj.items.floats[i])))
    else if obj.items.Empty? then Some([])
    else None
  }

  function Widened(widen: int -> nat, words: seq<int>): seq<int> {
    seq(|words|, i requires 0 <= i < |words| => Signed64(widen(words[i])))
  }

  function StateOf(h: Heap, r: ObjectRef, mutates: bool, element: Element, widening: bool, widen: int -> nat): Option<LoopState> {
    match Get(h, r)
    case Err(_) => None
    case Ok(obj) =>
      if !obj.List? then None
      else if element.I64? then
        (match IntegerWords(obj)
         case Some(words) => Some(LoopState(r, words, obj.version, false, false, mutates))
         case None => None)
      else
        match FloatWordsOf(obj)
        case Some(words) => Some(LoopState(r, words, obj.version, true, false, mutates))
        case None =>
          if widening && IntegerWords(obj).Some?
          then Some(LoopState(r, Widened(widen, IntegerWords(obj).value), obj.version, true, true, mutates))
          else None
  }

  function SnapshotOf(s: LoopState): Snapshot {
    Snapshot(s.words, s.version, s.mutates)
  }

  function Snapshots(states: seq<LoopState>): seq<Snapshot> {
    seq(|states|, i requires 0 <= i < |states| => SnapshotOf(states[i]))
  }

  function Bits(words: seq<int>): seq<nat> {
    seq(|words|, i requires 0 <= i < |words| => words[i] % TWO_64)
  }

  // A transaction as new contents of the list it belongs to.
  function Decoded(float: bool, words: seq<int>): Numbers {
    if float then Doubles(Bits(words)) else Integers(words)
  }

  function CommitOf(s: LoopState, words: seq<int>): Commit {
    Commit(s.reference, s.version, Decoded(s.float, words))
  }

  // The transactions of lists of one kind, in order.
  function Pending(states: seq<LoopState>, transactions: seq<Option<seq<int>>>, float: bool): seq<(LoopState, Commit)> {
    if states == [] || transactions == [] then []
    else
      (if transactions[0].Some? && states[0].float == float then [(states[0], CommitOf(states[0], transactions[0].value))] else [])
      + Pending(states[1..], transactions[1..], float)
  }

  function Commits(pending: seq<(LoopState, Commit)>): seq<Commit> {
    seq(|pending|, i requires 0 <= i < |pending| => pending[i].1)
  }

  lemma {:induction false} PendingAt(states: seq<LoopState>, transactions: seq<Option<seq<int>>>, float: bool, k: nat) returns (i: nat)
    requires k < |states| && k < |transactions| && transactions[k].Some? && states[k].float == float
    ensures i < |Pending(states, transactions, float)|
    ensures Pending(states, transactions, float)[i] == (states[k], CommitOf(states[k], transactions[k].value))
  {
    if k == 0 {
      i := 0;
    } else {
      i := PendingAt(states[1..], transactions[1..], float, k - 1);
      i := i + |Pending(states, transactions, float)| - |Pending(states[1..], transactions[1..], float)|;
    }
  }

  lemma {:induction false} PendingFrom(states: seq<LoopState>, transactions: seq<Option<seq<int>>>, float: bool, i: nat) returns (k: nat)
    requires i < |Pending(states, transactions, float)|
    ensures k < |states| && k < |transactions| && transactions[k].Some? && states[k].float == float
    ensures Pending(states, transactions, float)[i] == (states[k], CommitOf(states[k], transactions[k].value))
  {
    var rest := Pending(states[1..], transactions[1..], float);
    var own := |Pending(states, transactions, float)| - |rest|;
    if i < own {
      k := 0;
    } else {
      k := PendingFrom(states[1..], transactions[1..], float, i - own);
      k := k + 1;
    }
  }

  lemma {:induction false} PendingBounded(states: seq<LoopState>, transactions: seq<Option<seq<int>>>, float: bool)
    ensures |Pending(states, transactions, float)| <= |states|
  {
    if states != [] && transactions != [] {
      PendingBounded(states[1..], transactions[1..], float);
    }
  }

  // All objects that were there before are the same.
  ghost predicate Untouched(h: Heap, h': Heap) {
    forall r :: IsLive(h, r) ==> Get(h', r) == Get(h, r)
  }

  // A list whose elements are these words: integers, or floats by their bits.
  ghost predicate HoldsWords(obj: Obj, float: bool, words: seq<int>) {
    && obj.List? && |Contents(obj.items)| == |words|
    && forall j :: 0 <= j < |words| ==>
         Contents(obj.items)[j] == if float then Float(words[j] % TWO_64) else SmallInt(words[j])
  }

  lemma CommittedHoldsWords(s: LoopState, words: seq<int>)
    ensures HoldsWords(Committed(CommitOf(s, words)), s.float, words)
    ensures s.version < VERSION_MAX ==> Committed(CommitOf(s, words)).version == s.version + 1
  {
    CommittedHolds(CommitOf(s, words));
  }

  // The words that native code gets are the elements of the list, unless they are
  // integers that were widened.
  lemma SnapshotHolds(h: Heap, native: Native, inputs: seq<Value>, widening: bool, states: seq<LoopState>, k: nat)
    requires StatesMatch(h, native, inputs, widening, states) && k < |states|
    requires ValidFloats(h, states[k].reference)
    ensures inputs[native.storages[k].0] == Object(states[k].reference) && Get(h, states[k].reference).Ok?
    ensures Get(h, states[k].reference).value.List? && states[k].float == native.storages[k].2.F64?
    ensures states[k].widened <==> native.storages[k].2.F64? && Get(h, states[k].reference).value.items.Ints?
    ensures Snapshots(states)[k] == Snapshot(states[k].words, Get(h, states[k].reference).value.version, native.storages[k].1)
    ensures var obj, words := Get(h, states[k].reference).value, states[k].words;
      if !states[k].widened then HoldsWords(obj, native.storages[k].2.F64?, words)
      else
        && widening && native.storages[k].2.F64? && obj.List? && |words| == |Contents(obj.items)|
        && forall j :: 0 <= j < |words| ==>
             Contents(obj.items)[j].SmallInt? && words[j] == Signed64(native.widen(Contents(obj.items)[j].i))
  {
    var (input, mutates, element) := native.storages[k];
    assert StateOf(h, inputs[input].reference, mutates, element, widening, native.widen) == Some(states[k]);
    var obj := Get(h, states[k].reference).value;
    if states[k].float && !states[k].widened && obj.items.Floats? {
      forall j | 0 <= j < |states[k].words| ensures states[k].words[j] % TWO_64 == obj.items.floats[j] {
        SignedBack(obj.items.floats[j]);
      }
    }
  }

  // Floats are 64-bit patterns.
  ghost predicate ValidFloats(h: Heap, r: ObjectRef) {
    Get(h, r).Ok? && Get(h, r).value.List? && Get(h, r).value.items.Floats? ==>
      forall j :: 0 <= j < |Get(h, r).value.items.floats| ==> Get(h, r).value.items.floats[j] < TWO_64
  }

  lemma SignedBack(u: nat)
    requires u < TWO_64
    ensures Signed64(u) % TWO_64 == u
  {
  }

  // Every transaction is in the list it belongs to, under the next version, and no
  // other object has changed.
  ghost predicate AllWritten(h: Heap, h': Heap, states: seq<LoopState>, transactions: seq<Option<seq<int>>>) {
    && (forall k :: 0 <= k < |states| && k < |transactions| && transactions[k].Some? ==>
          && Get(h', states[k].reference).Ok?
          && HoldsWords(Get(h', states[k].reference).value, states[k].float, transactions[k].value)
          && (states[k].version < VERSION_MAX ==> Get(h', states[k].reference).value.version == states[k].version + 1))
    && (forall r :: IsLive(h, r) && NotWritten(r, states, transactions) ==> Get(h', r) == Get(h, r))
  }

  ghost predicate NotWritten(r: ObjectRef, states: seq<LoopState>, transactions: seq<Option<seq<int>>>) {
    forall k :: 0 <= k < |states| && k < |transactions| && transactions[k].Some? ==> states[k].reference != r
  }

  lemma NothingPending(h: Heap, states: seq<LoopState>, transactions: seq<Option<seq<int>>>)
    requires Pending(states, transactions, true) == [] && Pending(states, transactions, false) == []
    ensures AllWritten(h, h, states, transactions)
  {
    forall k | 0 <= k < |states| && k < |transactions| && transactions[k].Some? ensures false {
      var i := PendingAt(states, transactions, states[k].float, k);
    }
  }

  lemma WroteTransactions(h: Heap, h': Heap, states: seq<LoopState>, transactions: seq<Option<seq<int>>>, float: bool)
    requires Pending(states, transactions, !float) == []
    requires WroteAll(h, h', Commits(Pending(states, transactions, float)))
    ensures AllWritten(h, h', states, transactions)
  {
    var pending := Pending(states, transactions, float);
    var commits := Commits(pending);
    forall k | 0 <= k < |states| && k < |transactions| && transactions[k].Some?
      ensures Get(h', states[k].reference) == Ok(Committed(CommitOf(states[k], transactions[k].value)))
      ensures HoldsWords(Committed(CommitOf(states[k], transactions[k].value)), states[k].float, transactions[k].value)
      ensures states[k].version < VERSION_MAX ==>
        Committed(CommitOf(states[k], transactions[k].value)).version == states[k].version + 1
    {
      CommittedHoldsWords(states[k], transactions[k].value);
      if states[k].float != float {
        var i := PendingAt(states, transactions, !float, k);
      } else {
        var i := PendingAt(states, transactions, float, k);
        assert commits[i] == CommitOf(states[k], transactions[k].value);
      }
    }
    forall r | IsLive(h, r) && NotWritten(r, states, transactions) ensures Get(h', r) == Get(h, r) {
      forall i | 0 <= i < |commits| ensures commits[i].reference != r {
        var k := PendingFrom(states, transactions, float, i);
      }
    }
  }

  // --------------------------------------------------------------------- one run

  // Whether all inputs can be passed to native code.
  predicate Passable(native: Native, inputs: seq<Value>) {
    forall i :: 0 <= i < |inputs| ==>
      match inputs[i]
      case Object(r) => native.encode(r).Some?
      case NoneValue => false
      case Uninitialized => false
      case _ => true
  }

  // Both storages are the same list of floats, and the code takes two.
  predicate SplitsPair(native: Native, inputs: seq<Value>) {
    && native.splits && |native.storages| == 2
    && native.storages[0].1 && native.storages[0].2.F64? && native.storages[1].1 && native.storages[1].2.F64?
    && native.storages[0].0 < |inputs| && native.storages[1].0 < |inputs|
    && inputs[native.storages[0].0].Object? && inputs[native.storages[0].0] == inputs[native.storages[1].0]
  }

  // Inputs can be passed exactly if each is a number, a truth value or an object that
  // has a word.
  lemma PassableExactly(native: Native, inputs: seq<Value>)
    ensures Passable(native, inputs) <==>
      forall i :: 0 <= i < |inputs| ==>
        || inputs[i].SmallInt? || inputs[i].Float? || inputs[i].Bool?
        || (inputs[i].Object? && native.encode(inputs[i].reference).Some?)
  {
    if !Passable(native, inputs) {
      var i :| 0 <= i < |inputs| && !(inputs[i].SmallInt? || inputs[i].Float? || inputs[i].Bool? ||
                                      (inputs[i].Object? && native.encode(inputs[i].reference).Some?));
    }
  }

  // The temporary half of a split pair: a list of the same floats.
  function HalfOf(obj: Obj): Obj
    requires FloatWordsOf(obj).Some?
  {
    List(StorageFor(Doubles(Bits(FloatWordsOf(obj).value))), 0)
  }

  lemma HalfHasWords(obj: Obj)
    requires FloatWordsOf(obj).Some?
    ensures FloatWordsOf(HalfOf(obj)) == FloatWordsOf(obj)
  {
    var words := FloatWordsOf(obj).value;
    if words != [] {
      assert HalfOf(obj).items == Floats(Bits(words));
      forall i | 0 <= i < |words| ensures Signed64(Bits(words)[i]) == words[i] {
        SignedBits(obj.items.floats[i]);
      }
      assert FloatWordsOf(HalfOf(obj)).value == words;
    }
  }

  lemma SignedBits(u: nat)
    ensures Signed64(Signed64(u) % TWO_64) == Signed64(u)
  {
    if u % TWO_64 >= TWO_63 {
      assert Signed64(u) % TWO_64 == u % TWO_64;
    }
  }

  // What native code runs on: the heap and the inputs as they are, or for a split pair
  // a new list of the same floats in place of the second input, and nothing else new.
  ghost predicate Entered(h: Heap, native: Native, inputs: seq<Value>, h': Heap, passed: seq<Value>) {
    if !SplitsPair(native, inputs) then h' == h && passed == inputs
    else
      var original, second := Get(h, inputs[native.storages[0].0].reference), native.storages[1].0;
      && original.Ok? && FloatWordsOf(original.value).Some?
      && |passed| == |inputs| && passed[second].Object? && passed == inputs[second := passed[second]]
      && var half := passed[second].reference;
         && !IsLive(h, half) && !Spent(h, half)
         && IsLive(h', half) && FloatWordsOf(Get(h', half).value) == FloatWordsOf(original.value)
         && Untouched(h, h') && forall r :: IsLive(h', r) ==> IsLive(h, r) || r == half
  }

  // The same as a computation: nothing if the pair has no floats or no room.
  function EnteredBy(h: Heap, native: Native, inputs: seq<Value>): Option<(Heap, seq<Value>)> {
    if !SplitsPair(native, inputs) then Some((h, inputs))
    else
      var original := Get(h, inputs[native.storages[0].0].reference);
      if original.Err? || FloatWordsOf(original.value).None? then None
      else
        match Allocated(h, HalfOf(original.value))
        case (h', Ok(half)) => Some((h', inputs[native.storages[1].0 := Object(half)]))
        case (_, Err(_)) => None
  }

  // Native code sees two lists instead of one exactly if it takes a pair, both storages
  // are mutated lists of floats, and both inputs are the same object. The second list is
  // new, has the same floats and the version of a new list.
  lemma SplitExactly(h: Heap, native: Native, inputs: seq<Value>)
    requires ObjectHeaps.Valid(h) && EnteredBy(h, native, inputs).Some?
    ensures var (h', passed) := EnteredBy(h, native, inputs).value;
      (passed != inputs <==>
        && native.splits && |native.storages| == 2
        && native.storages[0].1 && native.storages[1].1 && native.storages[0].2 == native.storages[1].2 == F64
        && native.storages[0].0 < |inputs| && native.storages[1].0 < |inputs|
        && inputs[native.storages[0].0].Object? && inputs[native.storages[0].0] == inputs[native.storages[1].0])
    ensures var (h', passed) := EnteredBy(h, native, inputs).value;
      && (passed == inputs ==> h' == h)
      && (passed != inputs ==>
           var second := native.storages[1].0;
           && passed == inputs[second := passed[second]] && passed[second].Object?
           && Get(h', passed[second].reference).Ok?
           && var half, original := Get(h', passed[second].reference).value, Get(h', inputs[second].reference).value;
              half.List? && half.version == 0 && FloatWordsOf(half) == FloatWordsOf(original))
  {
    if SplitsPair(native, inputs) {
      var reference := inputs[native.storages[0].0].reference;
      var half := HalfOf(Get(h, reference).value);
      AllocateIsNew(h, half);
      HalfHasWords(Get(h, reference).value);
      assert EnteredBy(h, native, inputs).value.1[native.storages[1].0] != inputs[native.storages[1].0];
    }
  }

  // What becomes of a run: it is not even tried, native code declines or fails, or
  // everything that it wants to write can be written.
  function LoopOutcome(h: Heap, native: Native, inputs: seq<Value>, widening: bool): Option<LoopResult> {
    if !(1 <= |native.storages| <= 2) then None
    else
      match EnteredBy(h, native, inputs)
      case None => None
      case Some((entered, passed)) =>
        if !Passable(native, passed) || !native.accepts(passed) then None else EnteredOutcome(entered, native, passed, widening)
  }

  function EnteredOutcome(entered: Heap, native: Native, passed: seq<Value>, widening: bool): Option<LoopResult> {
    match StatesFrom(entered, native, passed, widening, |native.storages|)
    case None => None
    case Some(states) =>
      match native.run(passed, Snapshots(states), [])
      case Refused => None
      case Failed => Some(LoopFailed)
      case Ran(deopts, transactions) =>
        if deopts > 0 then None
        else if !native.resumes then Some(LoopFailed)
        else if Committable(states, transactions) then Some(Executed)
        else None
  }

  // The states of all storages, if each is a list of its element kind.
  predicate StatesMatch(h: Heap, native: Native, inputs: seq<Value>, widening: bool, states: seq<LoopState>) {
    && |states| <= |native.storages|
    && forall k :: 0 <= k < |states| ==>
      && native.storages[k].0 < |inputs| && inputs[native.storages[k].0].Object?
      && StateOf(h, inputs[native.storages[k].0].reference, native.storages[k].1, native.storages[k].2, widening, native.widen)
         == Some(states[k])
  }

  // The states of the first `n` storages.
  function StatesFrom(h: Heap, native: Native, inputs: seq<Value>, widening: bool, n: nat): Option<seq<LoopState>>
    requires n <= |native.storages|
  {
    if n == 0 then Some([])
    else
      var before := StatesFrom(h, native, inputs, widening, n - 1);
      var (input, mutates, element) := native.storages[n - 1];
      if before.None? || input >= |inputs| || !inputs[input].Object? then None
      else
        match StateOf(h, inputs[input].reference, mutates, element, widening, native.widen)
        case None => None
        case Some(state) => Some(before.value + [state])
  }

  lemma {:induction false} StatesFromPrefix(h: Heap, native: Native, inputs: seq<Value>, widening: bool, n: nat, m: nat)
    requires n <= m <= |native.storages| && StatesFrom(h, native, inputs, widening, n).None?
    ensures StatesFrom(h, native, inputs, widening, m).None?
  {
    if n < m {
      StatesFromPrefix(h, native, inputs, widening, n, m - 1);
    }
  }

  method CollectStates(heap: ObjectHeap, native: Native, inputs: seq<Value>, widening: bool) returns (r: Option<seq<LoopState>>)
    ensures r == StatesFrom(heap.View(), native, inputs, widening, |native.storages|)
    ensures r.Some? ==> |r.value| == |native.storages| && StatesMatch(heap.View(), native, inputs, widening, r.value)
  {
    hide StateOf;
    var states: seq<LoopState> := [];
    for i := 0 to |native.storages|
      invariant |states| == i && StatesMatch(heap.View(), native, inputs, widening, states)
      invariant StatesFrom(heap.View(), native, inputs, widening, i) == Some(states)
    {
      var (input, mutates, element) := native.storages[i];
      if StatesFrom(heap.View(), native, inputs, widening, i + 1).None? {
        StatesFromPrefix(heap.View(), native, inputs, widening, i + 1, |native.storages|);
      }
      if input >= |inputs| || !inputs[input].Object? {
        return None;
      }
      var state := StateOf(heap.View(), inputs[input].reference, mutates, element, widening, native.widen);
      if state.None? {
        return None;
      }
      states := states + [state.value];
    }
    return Some(states);
  }

  // A list that is only read is still what its snapshot was taken from.
  predicate ReadCurrent(h: Heap, s: LoopState) {
    var obj := Get(h, s.reference);
    && obj.Ok? && (if s.float && !s.widened then FloatWordsOf(obj.value).Some? else IntegerWords(obj.value).Some?)
    && obj.value.version == s.version
  }

  // Nothing else reaches the heap while native code runs, so the version check of the
  // lists that are only read never refuses.
  lemma ReadsCurrent(h: Heap, native: Native, inputs: seq<Value>, widening: bool, states: seq<LoopState>)
    requires StatesMatch(h, native, inputs, widening, states)
    ensures forall k :: 0 <= k < |states| ==> ReadCurrent(h, states[k])
  {
    forall k | 0 <= k < |states| ensures ReadCurrent(h, states[k]) {
      assert StateOf(h, inputs[native.storages[k].0].reference, native.storages[k].1, native.storages[k].2, widening, native.widen)
        == Some(states[k]);
    }
  }

  // A widened list takes floats in place of its integers.
  method CommitWidened(heap: ObjectHeap, c: Commit) returns (ok: bool)
    requires ObjectHeaps.Valid(heap.View()) && c.numbers.Doubles?
    modifies heap`slots
    ensures ok <==>
      var obj := Get(old(heap.View()), c.reference);
      obj.Ok? && obj.value.List? && obj.value.version == c.version && obj.value.items.Ints?
    ensures ok ==> WroteAll(old(heap.View()), heap.View(), [c]) && IsLive(old(heap.View()), c.reference)
    ensures !ok ==> heap.View() == old(heap.View())
  {
    ghost var h := heap.View();
    var obj := Get(heap.View(), c.reference);
    if obj.Err? || !obj.value.List? || obj.value.version != c.version || !obj.value.items.Ints? {
      return false;
    }
    WroteNone(h);
    WroteMore(h, h, [], c);
    assert [] + [c] == [c];
    heap.slots := heap.slots[c.reference.slot := Slot(c.reference.generation, Some(Committed(c)))];
    return true;
  }

  // A write-back that its list still fits: widened ones fit the integers that they were
  // made from, all others fit as they are.
  ghost predicate StillFits(h: Heap, p: (LoopState, Commit)) {
    if p.0.widened then
      var obj := Get(h, p.1.reference);
      obj.Ok? && obj.value.List? && obj.value.version == p.1.version && obj.value.items.Ints?
    else CurrentIn(h, p.1)
  }

  lemma StatesStillFit(h: Heap, native: Native, inputs: seq<Value>, widening: bool, states: seq<LoopState>, transactions: seq<Option<seq<int>>>, float: bool)
    requires StatesMatch(h, native, inputs, widening, states)
    ensures forall i :: 0 <= i < |Pending(states, transactions, float)| ==> StillFits(h, Pending(states, transactions, float)[i])
  {
    forall i | 0 <= i < |Pending(states, transactions, float)| ensures StillFits(h, Pending(states, transactions, float)[i]) {
      var k := PendingFrom(states, transactions, float, i);
      assert StateOf(h, inputs[native.storages[k].0].reference, native.storages[k].1, native.storages[k].2, widening, native.widen) == Some(states[k]);
    }
  }

  // Transactions that can be written together: of one kind, into different lists, and a
  // widened list only alone.
  predicate Committable(states: seq<LoopState>, transactions: seq<Option<seq<int>>>) {
    forall a, b ::
      0 <= a < b < |states| && b < |transactions| && transactions[a].Some? && transactions[b].Some? ==>
        && states[a].float == states[b].float && !states[a].widened && !states[b].widened
        && states[a].reference != states[b].reference
  }

  function OwnPending(states: seq<LoopState>, transactions: seq<Option<seq<int>>>, float: bool, k: nat): seq<(LoopState, Commit)> {
    if k < |states| && k < |transactions| && transactions[k].Some? && states[k].float == float
    then [(states[k], CommitOf(states[k], transactions[k].value))] else []
  }

  lemma PendingOfTwo(states: seq<LoopState>, transactions: seq<Option<seq<int>>>, float: bool)
    requires |states| <= 2
    ensures Pending(states, transactions, float)
      == OwnPending(states, transactions, float, 0) + OwnPending(states, transactions, float, 1)
  {
    if |states| == 2 && transactions != [] {
      assert states[1..][1..] == [];
      assert Pending(states[1..][1..], if |transactions| > 1 then transactions[1..][1..] else [], float) == [];
    }
  }

  // The write-back of the lists of one kind: all of them or none.
  method WriteBack(heap: ObjectHeap, pending: seq<(LoopState, Commit)>) returns (ok: bool)
    requires ObjectHeaps.Valid(heap.View()) && |pending| <= 2
    requires forall i :: 0 <= i < |pending| ==> pending[i].0.widened ==> pending[i].1.numbers.Doubles?
    requires forall i :: 0 <= i < |pending| ==> StillFits(heap.View(), pending[i])
    modifies heap`slots
    ensures ok <==>
      (|pending| == 2 ==> !pending[0].0.widened && !pending[1].0.widened && pending[0].1.reference != pending[1].1.reference)
    ensures ok ==> WroteAll(old(heap.View()), heap.View(), Commits(pending)) && ObjectHeaps.Valid(heap.View())
    ensures !ok ==> heap.View() == old(heap.View())
  {
    ghost var h := heap.View();
    if |pending| == 1 && pending[0].0.widened {
      ok := CommitWidened(heap, pending[0].1);
      assert Commits(pending) == [pending[0].1];
      if ok {
        WroteValid(h, heap.View(), Commits(pending));
      }
      return;
    }
    if |pending| == 2 && (pending[0].0.widened || pending[1].0.widened) {
      return false;
    }
    assert DistinctLists(Commits(pending)) <==> |pending| <= 1 || Commits(pending)[0].reference != Commits(pending)[1].reference;
    assert forall i :: 0 <= i < |pending| ==> CurrentIn(h, Commits(pending)[i]);
    var r := heap.CommitSnapshots(Commits(pending));
    ok := r == Ok(true);
    if ok {
      WroteValid(h, heap.View(), Commits(pending));
    }
  }

  // The temporary half of a split pair goes away again.
  method DropSplit(heap: ObjectHeap, split: Option<ObjectRef>, ghost before: Heap)
    requires ObjectHeaps.Valid(heap.View()) && Untouched(before, heap.View())
    requires split.Some? ==> !IsLive(before, split.value) && IsLive(heap.View(), split.value)
    modifies heap`slots, heap`freeSlots
    ensures ObjectHeaps.Valid(heap.View()) && Untouched(before, heap.View())
    ensures forall r :: IsLive(heap.View(), r) <==> IsLive(old(heap.View()), r) && split != Some(r)
  {
    if split.Some? {
      ghost var h := heap.View();
      RemovedValid(h, split.value);
      RemoveSpends(h, split.value);
      SpentIsDead(Removed(h, split.value).0, split.value);
      var _ := heap.Remove(split.value);
    }
  }

  lemma StatesWiden(h: Heap, native: Native, inputs: seq<Value>, widening: bool, states: seq<LoopState>, transactions: seq<Option<seq<int>>>, float: bool)
    requires StatesMatch(h, native, inputs, widening, states)
    ensures forall i :: 0 <= i < |Pending(states, transactions, float)| ==>
      Pending(states, transactions, float)[i].0.widened ==> Pending(states, transactions, float)[i].1.numbers.Doubles?
  {
    forall i | 0 <= i < |Pending(states, transactions, float)|
      ensures Pending(states, transactions, float)[i].0.widened ==> Pending(states, transactions, float)[i].1.numbers.Doubles?
    {
      var k := PendingFrom(states, transactions, float, i);
      assert StateOf(h, inputs[native.storages[k].0].reference, native.storages[k].1, native.storages[k].2, widening, native.widen) == Some(states[k]);
    }
  }

  // After a successful run of the native code: all transactions or none.
  method WriteTransactions(
      heap: ObjectHeap, native: Native, inputs: seq<Value>, widening: bool, states: seq<LoopState>, transactions: seq<Option<seq<int>>>)
    returns (ok: bool)
    requires ObjectHeaps.Valid(heap.View()) && StatesMatch(heap.View(), native, inputs, widening, states) && |states| <= 2
    modifies heap`slots
    ensures ObjectHeaps.Valid(heap.View())
    ensures ok <==> Committable(states, transactions)
    ensures ok ==> AllWritten(old(heap.View()), heap.View(), states, transactions)
    ensures !ok ==> heap.View() == old(heap.View())
  {
    PendingOfTwo(states, transactions, false);
    PendingOfTwo(states, transactions, true);
    StatesStillFit(heap.View(), native, inputs, widening, states, transactions, false);
    StatesStillFit(heap.View(), native, inputs, widening, states, transactions, true);
    hide Pending, StatesMatch, AllWritten, WroteAll;
    var integers, floats := Pending(states, transactions, false), Pending(states, transactions, true);
    if integers != [] && floats != [] {
      return false;
    }
    PendingBounded(states, transactions, false);
    PendingBounded(states, transactions, true);
    StatesWiden(heap.View(), native, inputs, widening, states, transactions, false);
    StatesWiden(heap.View(), native, inputs, widening, states, transactions, true);
    ghost var h := heap.View();
    if integers != [] {
      ok := WriteBack(heap, integers);
      if ok {
        WroteTransactions(h, heap.View(), states, transactions, false);
      }
    } else if floats != [] {
      ok := WriteBack(heap, floats);
      if ok {
        WroteTransactions(h, heap.View(), states, transactions, true);
      }
    } else {
      NothingPending(h, states, transactions);
      ok := true;
    }
  }

  // What native code is to run on; a pair that it takes apart gets its second half.
  method Enter(heap: ObjectHeap, native: Native, inputs: seq<Value>) returns (passed: Option<seq<Value>>, split: Option<ObjectRef>)
    requires ObjectHeaps.Valid(heap.View())
    modifies heap`slots, heap`freeSlots
    ensures ObjectHeaps.Valid(heap.View()) && Untouched(old(heap.View()), heap.View())
    ensures EnteredBy(old(heap.View()), native, inputs) == if passed.Some? then Some((heap.View(), passed.value)) else None
    ensures passed.Some? ==> Entered(old(heap.View()), native, inputs, heap.View(), passed.value)
    ensures split == if passed.Some? && SplitsPair(native, inputs) then Some(passed.value[native.storages[1].0].reference) else None
  {
    ghost var before := heap.View();
    if !SplitsPair(native, inputs) {
      return Some(inputs), None;
    }
    var original := Get(heap.View(), inputs[native.storages[0].0].reference);
    if original.Err? || FloatWordsOf(original.value).None? {
      return None, None;
    }
    var half := HalfOf(original.value);
    AllocatedValid(before, half);
    AllocateIsNew(before, half);
    HalfHasWords(original.value);
    var reference := heap.Allocate(half);
    if reference.Err? {
      return None, None;
    }
    return Some(inputs[native.storages[1].0 := Object(reference.value)]), Some(reference.value);
  }

  // The run itself on accepted inputs: all transactions are written or nothing is.
  method RunEntered(heap: ObjectHeap, native: Native, passed: seq<Value>, widening: bool)
    returns (r: Option<LoopResult>, ghost states: seq<LoopState>, ghost transactions: seq<Option<seq<int>>>)
    requires ObjectHeaps.Valid(heap.View()) && 1 <= |native.storages| <= 2
    modifies heap`slots
    ensures ObjectHeaps.Valid(heap.View())
    ensures r == EnteredOutcome(old(heap.View()), native, passed, widening)
    ensures r == Some(Executed) ==>
      && |states| == |native.storages| && StatesMatch(old(heap.View()), native, passed, widening, states)
      && native.run(passed, Snapshots(states), []) == Ran(0, transactions)
      && AllWritten(old(heap.View()), heap.View(), states, transactions)
    ensures r != Some(Executed) ==> heap.View() == old(heap.View())
  {
    hide AllWritten, StatesMatch, StatesFrom, Committable;
    r, states, transactions := None, [], [];
    var collected := CollectStates(heap, native, passed, widening);
    if collected.None? {
      return;
    }
    states := collected.value;
    var result := native.run(passed, Snapshots(collected.value), []);
    if !result.Ran? || result.deopts > 0 {
      r := if result.Failed? then Some(LoopFailed) else None;
      return;
    }
    transactions := result.transactions;
    // The version check of the lists that are only read belongs here; it always passes.
    ReadsCurrent(heap.View(), native, passed, widening, collected.value);
    if !native.resumes {
      r := Some(LoopFailed);
      return;
    }
    var ok := WriteTransactions(heap, native, passed, widening, collected.value, result.transactions);
    if ok {
      r := Some(Executed);
    }
  }

  // A single native run is all-or-nothing on the heap: a success means that every
  // transaction is in its list, and anything else that no object has changed. Once
  // inputs were accepted, a refusal leaves no new object behind either.
  method ExecuteObjectLoopOnce(heap: ObjectHeap, native: Native, inputs: seq<Value>, widening: bool)
    returns (r: Option<LoopResult>, ghost entered: Heap, ghost passed: seq<Value>, ghost states: seq<LoopState>, ghost transactions: seq<Option<seq<int>>>)
    requires ObjectHeaps.Valid(heap.View())
    modifies heap`slots, heap`freeSlots
    ensures ObjectHeaps.Valid(heap.View())
    ensures r == LoopOutcome(old(heap.View()), native, inputs, widening)
    ensures r == Some(Executed) ==>
      && Entered(old(heap.View()), native, inputs, entered, passed)
      && |states| == |native.storages| && StatesMatch(entered, native, passed, widening, states)
      && native.run(passed, Snapshots(states), []) == Ran(0, transactions)
      && AllWritten(entered, heap.View(), states, transactions)
    ensures r != Some(Executed) ==> Untouched(old(heap.View()), heap.View())
    ensures r != Some(Executed) && Tried(old(heap.View()), native, inputs) ==>
      forall x :: IsLive(heap.View(), x) ==> IsLive(old(heap.View()), x)
  {
    hide AllWritten, StatesMatch, EnteredOutcome;
    ghost var before := heap.View();
    r, entered, passed, states, transactions := None, before, inputs, [], [];
    if native.storages == [] || |native.storages| > 2 {
      return;
    }
    var executionInputs, split := Enter(heap, native, inputs);
    if executionInputs.None? {
      return;
    }
    entered, passed := heap.View(), executionInputs.value;
    if !Passable(native, executionInputs.value) || !native.accepts(executionInputs.value) {
      return;
    }
    r, states, transactions := RunEntered(heap, native, executionInputs.value, widening);
    if r != Some(Executed) {
      DropSplit(heap, split, before);
    }
  }

  // Native code was given inputs that it accepts.
  predicate Tried(h: Heap, native: Native, inputs: seq<Value>) {
    && 1 <= |native.storages| <= 2 && EnteredBy(h, native, inputs).Some?
    && var passed := EnteredBy(h, native, inputs).value.1;
       Passable(native, passed) && native.accepts(passed)
  }
}
