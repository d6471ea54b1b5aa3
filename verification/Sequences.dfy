/**
  Strategy-specialised sequence storage (src/object/sequence.rs,
  src/object/sequence/storage.rs) over tagged runtime slots (src/value.rs), and the
  plain sequence of values that it stands for.
 */
module Sequences {
  import opened MachineWords
  import opened Wrappers
  import opened Values

  const VERSION_MAX: nat := 0xFFFF_FFFF_FFFF_FFFF

  // ------------------------------------------------------------------ runtime slots

  datatype RuntimeSlot = RuntimeSlot(tag: nat, payload: nat, extra: nat)

  // The values that the machine has: 64-bit integers and floats, 32-bit slot numbers.
  predicate Representable(v: Value) {
    match v
    case SmallInt(i) => -0x8000_0000_0000_0000 <= i < 0x8000_0000_0000_0000
    case Float(bits) => bits < TWO_64
    case Object(r) => r.heapId < TWO_64 && r.slot < TWO_32 && r.generation < TWO_32
    case _ => true
  }

  predicate AllRepresentable(vs: seq<Value>) {
    forall i :: 0 <= i < |vs| ==> Representable(vs[i])
  }

  function FromValue(v: Value): RuntimeSlot {
    match v
    case Bool(b) => RuntimeSlot(0, if b then 1 else 0, 0)
    case SmallInt(i) => RuntimeSlot(1, i % TWO_64, 0)
    case Float(bits) => RuntimeSlot(2, bits, 0)
    case Object(r) => RuntimeSlot(3, r.heapId, r.slot + r.generation * TWO_32)
    case Uninitialized => RuntimeSlot(4, 0, 0)
    case NoneValue => RuntimeSlot(5, 0, 0)
  }

  // A u64 read as an i64.
  function Signed64(u: nat): int {
    if u % TWO_64 < TWO_63 then u % TWO_64 else u % TWO_64 - TWO_64
  }

  function SlotValue(s: RuntimeSlot): Value {
    if s.tag == 0 then Bool(s.payload != 0)
    else if s.tag == 1 then SmallInt(Signed64(s.payload))
    else if s.tag == 2 then Float(s.payload)
    else if s.tag == 3 then Object(ObjectRef(s.payload, s.extra % TWO_32, s.extra / TWO_32 % TWO_32))
    else if s.tag == 4 then Uninitialized
    else NoneValue
  }

  // A slot gives back exactly the value that it was made from.
  lemma SlotRoundTrip(v: Value)
    requires Representable(v)
    ensures SlotValue(FromValue(v)) == v
    ensures FromValue(v).tag <= 5 && FromValue(v).payload < TWO_64 && FromValue(v).extra < TWO_64
    ensures v.Bool? ==> FromValue(v).payload <= 1
  {
    if v.Object? {
      var r := v.reference;
      assert (r.slot + r.generation * TWO_32) / TWO_32 == r.generation;
    }
  }

  // ------------------------------------------------------------------------ storage

  datatype Strategy = EmptyStrategy | BoolStrategy | I64Strategy | F64Strategy | ObjectStrategy

  datatype Storage =
    | Empty
    | Bools(bools: seq<nat>)
    | Ints(ints: seq<int>)
    | Floats(floats: seq<nat>)
    | Objects(slots: seq<RuntimeSlot>)

  function StrategyOf(s: Storage): Strategy {
    match s
    case Empty => EmptyStrategy
    case Bools(_) => BoolStrategy
    case Ints(_) => I64Strategy
    case Floats(_) => F64Strategy
    case Objects(_) => ObjectStrategy
  }

  // The plain sequence that a storage stands for.
  function Contents(s: Storage): seq<Value> {
    match s
    case Empty => []
    case Bools(bs) => seq(|bs|, i requires 0 <= i < |bs| => Bool(bs[i] != 0))
    case Ints(is_) => seq(|is_|, i requires 0 <= i < |is_| => SmallInt(is_[i]))
    case Floats(fs) => seq(|fs|, i requires 0 <= i < |fs| => Float(fs[i]))
    case Objects(slots) => seq(|slots|, i requires 0 <= i < |slots| => SlotValue(slots[i]))
  }

  // Every element is a value that the machine has.
  predicate ValidStorage(s: Storage) {
    AllRepresentable(Contents(s))
  }

  function BoolBytes(vs: seq<Value>): seq<nat> {
    seq(|vs|, i requires 0 <= i < |vs| => if vs[i].Bool? && vs[i].b then 1 else 0)
  }

  function IntWords(vs: seq<Value>): seq<int> {
    seq(|vs|, i requires 0 <= i < |vs| => if vs[i].SmallInt? then vs[i].i else 0)
  }

  function FloatWords(vs: seq<Value>): seq<nat> {
    seq(|vs|, i requires 0 <= i < |vs| => if vs[i].Float? then vs[i].bits else 0)
  }

  function Slots(vs: seq<Value>): seq<RuntimeSlot> {
    seq(|vs|, i requires 0 <= i < |vs| => FromValue(vs[i]))
  }

  function StorageFromValues(vs: seq<Value>): Storage {
    if vs == [] then Empty
    else if forall i :: 0 <= i < |vs| ==> vs[i].Bool? then Bools(BoolBytes(vs))
    else if forall i :: 0 <= i < |vs| ==> vs[i].SmallInt? then Ints(IntWords(vs))
    else if forall i :: 0 <= i < |vs| ==> vs[i].Float? then Floats(FloatWords(vs))
    else Objects(Slots(vs))
  }

  lemma SlotsHold(vs: seq<Value>)
    requires AllRepresentable(vs)
    ensures Contents(Objects(Slots(vs))) == vs
  {
    forall i | 0 <= i < |vs| ensures SlotValue(Slots(vs)[i]) == vs[i] {
      SlotRoundTrip(vs[i]);
    }
  }

  // Values of one kind are kept unboxed, and only those.
  lemma StrategyOfValues(vs: seq<Value>)
    ensures var s := StrategyOf(StorageFromValues(vs));
      && (s == EmptyStrategy <==> vs == [])
      && (s == BoolStrategy <==> vs != [] && forall i :: 0 <= i < |vs| ==> vs[i].Bool?)
      && (s == I64Strategy <==> vs != [] && forall i :: 0 <= i < |vs| ==> vs[i].SmallInt?)
      && (s == F64Strategy <==> vs != [] && forall i :: 0 <= i < |vs| ==> vs[i].Float?)
  {
    if vs != [] {
      assert vs[0] == vs[0];
    }
  }

  // Whatever strategy is chosen, nothing is lost.
  lemma StorageHolds(vs: seq<Value>)
    requires AllRepresentable(vs)
    ensures Contents(StorageFromValues(vs)) == vs
  {
    if StorageFromValues(vs).Objects? {
      SlotsHold(vs);
    } else {
      assert Contents(StorageFromValues(vs)) == vs;
    }
  }

  // -------------------------------------------------------- plain sequence operations

  function Inserted<T>(s: seq<T>, index: nat, x: T): seq<T>
    requires index <= |s|
  {
    s[..index] + [x] + s[index..]
  }

  function RemovedAt<T>(s: seq<T>, index: nat): seq<T>
    requires index < |s|
  {
    s[..index] + s[index + 1..]
  }

  function Spliced<T>(s: seq<T>, low: nat, high: nat, replacement: seq<T>): seq<T>
    requires low <= high <= |s|
  {
    s[..low] + replacement + s[high..]
  }

  function Reversed<T>(s: seq<T>): seq<T> {
    seq(|s|, i requires 0 <= i < |s| => s[|s| - 1 - i])
  }

  // ------------------------------------------------------- operations on the storage

  function ByteOf(b: bool): nat {
    if b then 1 else 0
  }

  // The storage after an assignment: in place if the value suits the strategy.
  function Assigned(s: Storage, index: nat, v: Value): Storage
    requires index < |Contents(s)|
  {
    if s.Bools? && v.Bool? then Bools(s.bools[index := ByteOf(v.b)])
    else if s.Ints? && v.SmallInt? then Ints(s.ints[index := v.i])
    else if s.Floats? && v.Float? then Floats(s.floats[index := v.bits])
    else if s.Objects? then Objects(s.slots[index := FromValue(v)])
    else Objects(Slots(Contents(s)[index := v]))
  }

  lemma AssignedContents(s: Storage, index: nat, v: Value)
    requires ValidStorage(s) && Representable(v) && index < |Contents(s)|
    ensures Contents(Assigned(s, index, v)) == Contents(s)[index := v]
  {
    SlotRoundTrip(v);
    if Assigned(s, index, v).Objects? && !s.Objects? {
      SlotsHold(Contents(s)[index := v]);
    } else {
      assert Contents(Assigned(s, index, v)) == Contents(s)[index := v];
    }
  }

  function InsertedIn(s: Storage, index: nat, v: Value): Storage
    requires index <= |Contents(s)|
  {
    if s.Empty? then StorageFromValues([v])
    else if s.Bools? && v.Bool? then Bools(Inserted(s.bools, index, ByteOf(v.b)))
    else if s.Ints? && v.SmallInt? then Ints(Inserted(s.ints, index, v.i))
    else if s.Floats? && v.Float? then Floats(Inserted(s.floats, index, v.bits))
    else if s.Objects? then Objects(Inserted(s.slots, index, FromValue(v)))
    else Objects(Slots(Inserted(Contents(s), index, v)))
  }

  lemma InsertedBool(bs: seq<nat>, index: nat, b: bool)
    requires index <= |bs| == |Contents(Bools(bs))|
    ensures Contents(Bools(Inserted(bs, index, ByteOf(b)))) == Inserted(Contents(Bools(bs)), index, Bool(b))
  {
  }

  lemma InsertedInt(is_: seq<int>, index: nat, i: int)
    requires index <= |is_|
    ensures Contents(Ints(Inserted(is_, index, i))) == Inserted(Contents(Ints(is_)), index, SmallInt(i))
  {
  }

  lemma InsertedFloat(fs: seq<nat>, index: nat, bits: nat)
    requires index <= |fs|
    ensures Contents(Floats(Inserted(fs, index, bits))) == Inserted(Contents(Floats(fs)), index, Float(bits))
  {
  }

  lemma InsertedSlot(slots: seq<RuntimeSlot>, index: nat, v: Value)
    requires index <= |slots| && Representable(v)
    ensures Contents(Objects(Inserted(slots, index, FromValue(v)))) == Inserted(Contents(Objects(slots)), index, v)
  {
    SlotRoundTrip(v);
  }

  lemma InsertedFirst(s: Storage, v: Value)
    requires s.Empty? && Representable(v)
    ensures Contents(s) == [] && Contents(InsertedIn(s, 0, v)) == Inserted(Contents(s), 0, v)
  {
    StorageHolds([v]);
    assert Inserted([], 0, v) == [v];
  }

  lemma InsertedOther(s: Storage, index: nat, v: Value)
    requires ValidStorage(s) && Representable(v) && index <= |Contents(s)|
    ensures Contents(Objects(Slots(Inserted(Contents(s), index, v)))) == Inserted(Contents(s), index, v)
  {
    var vs := Inserted(Contents(s), index, v);
    forall i | 0 <= i < |vs| ensures Representable(vs[i]) {
    }
    SlotsHold(vs);
  }

  lemma InsertedInPlace(s: Storage, index: nat, v: Value)
    requires ValidStorage(s) && Representable(v) && index <= |Contents(s)|
    requires (s.Bools? && v.Bool?) || (s.Ints? && v.SmallInt?) || (s.Floats? && v.Float?) || s.Objects?
    ensures Contents(InsertedIn(s, index, v)) == Inserted(Contents(s), index, v)
  {
    match s
    case Bools(bs) => InsertedBool(bs, index, v.b);
    case Ints(is_) => InsertedInt(is_, index, v.i);
    case Floats(fs) => InsertedFloat(fs, index, v.bits);
    case Objects(slots) => InsertedSlot(slots, index, v);
    case Empty =>
  }

  lemma InsertedContents(s: Storage, index: nat, v: Value)
    requires ValidStorage(s) && Representable(v) && index <= |Contents(s)|
    ensures Contents(InsertedIn(s, index, v)) == Inserted(Contents(s), index, v)
  {
    hide Contents, Inserted, Slots, StorageFromValues, Representable, ValidStorage;
    if s.Empty? {
      InsertedFirst(s, v);
    } else if (s.Bools? && v.Bool?) || (s.Ints? && v.SmallInt?) || (s.Floats? && v.Float?) || s.Objects? {
      InsertedInPlace(s, index, v);
    } else {
      InsertedOther(s, index, v);
    }
  }

  function StrategyFor(v: Value): Strategy {
    if v.Bool? then BoolStrategy
    else if v.SmallInt? then I64Strategy
    else if v.Float? then F64Strategy
    else ObjectStrategy
  }

  // The first value decides about the strategy; another keeps it if it is of that kind.
  lemma InsertedStrategy(s: Storage, index: nat, v: Value)
    requires index <= |Contents(s)|
    ensures StrategyOf(InsertedIn(s, index, v)) ==
      if s.Empty? then StrategyFor(v)
      else if s.Objects? || StrategyFor(v) == StrategyOf(s) then StrategyOf(s)
      else ObjectStrategy
  {
    hide Contents;
    if s.Empty? {
      StrategyOfValues([v]);
    }
  }

  lemma RemovedStrategy(s: Storage, index: nat)
    requires index < |Contents(s)|
    ensures StrategyOf(RemovedFrom(s, index)) == StrategyOf(s)
  {
  }

  function RemovedFrom(s: Storage, index: nat): Storage
    requires index < |Contents(s)|
  {
    match s
    case Empty => s
    case Bools(bs) => Bools(RemovedAt(bs, index))
    case Ints(is_) => Ints(RemovedAt(is_, index))
    case Floats(fs) => Floats(RemovedAt(fs, index))
    case Objects(slots) => Objects(RemovedAt(slots, index))
  }

  lemma RemovedContents(s: Storage, index: nat)
    requires index < |Contents(s)|
    ensures Contents(RemovedFrom(s, index)) == RemovedAt(Contents(s), index)
  {
    match s
    case Empty =>
    case Bools(bs) => assert Contents(Bools(RemovedAt(bs, index))) == RemovedAt(Contents(s), index);
    case Ints(is_) => assert Contents(Ints(RemovedAt(is_, index))) == RemovedAt(Contents(s), index);
    case Floats(fs) => assert Contents(Floats(RemovedAt(fs, index))) == RemovedAt(Contents(s), index);
    case Objects(slots) => assert Contents(Objects(RemovedAt(slots, index))) == RemovedAt(Contents(s), index);
  }

  // ------------------------------------------------------------------- the sequence

  // What a borrower remembers of a sequence and what it may conclude later.
  datatype Layout = Layout(strategy: Strategy, length: nat, version: nat)

  function Bumped(version: nat): nat {
    if version < VERSION_MAX then version + 1 else VERSION_MAX
  }

  // The version never falls and, until it saturates, moves with strategy and length.
  predicate LayoutFollows(l: Layout, l': Layout) {
    && l.version <= l'.version <= VERSION_MAX
    && (l'.version == l.version && l.version < VERSION_MAX ==> l' == l)
  }

  lemma LayoutFollowsAll(layouts: seq<Layout>, n: nat)
    requires n < |layouts| && layouts[0].version <= VERSION_MAX
    requires forall i :: 0 <= i < |layouts| - 1 ==> LayoutFollows(layouts[i], layouts[i + 1])
    ensures LayoutFollows(layouts[0], layouts[n])
  {
    if n > 0 {
      LayoutFollowsAll(layouts, n - 1);
    }
  }

  class SequenceObject {
    var storage: Storage
    var layoutVersion: nat

    ghost predicate Valid()
      reads this
    {
      ValidStorage(storage) && layoutVersion <= VERSION_MAX
    }

    function View(): seq<Value>
      reads this
    {
      Contents(storage)
    }

    function LayoutNow(): Layout
      reads this
    {
      Layout(StrategyOf(storage), |Contents(storage)|, layoutVersion)
    }

    constructor FromValues(vs: seq<Value>)
      requires AllRepresentable(vs)
      ensures Valid() && View() == vs && layoutVersion == 0 && storage == StorageFromValues(vs)
    {
      StorageHolds(vs);
      storage := StorageFromValues(vs);
      layoutVersion := 0;
    }

    method BumpLayout()
      modifies this`layoutVersion
      ensures layoutVersion == Bumped(old(layoutVersion))
    {
      layoutVersion := Bumped(layoutVersion);
    }

    // Assignment in place; only a value of another strategy changes the layout.
    method Set(index: nat, v: Value) returns (previous: Option<Value>)
      requires Valid() && Representable(v)
      modifies this
      ensures Valid() && LayoutFollows(old(LayoutNow()), LayoutNow())
      ensures index < |old(View())| ==> previous == Some(old(View())[index]) && View() == old(View())[index := v]
      ensures index >= |old(View())| ==> previous.None? && storage == old(storage) && layoutVersion == old(layoutVersion)
      ensures index < |old(View())| ==>
        storage == Assigned(old(storage), index, v) && layoutVersion == VersionAssigned(old(storage), index, v, old(layoutVersion))
    {
      hide Contents, Assigned;
      if index >= |Contents(storage)| {
        return None;
      }
      previous := Some(Contents(storage)[index]);
      AssignedContents(storage, index, v);
      var next := Assigned(storage, index, v);
      if StrategyOf(next) != StrategyOf(storage) {
        BumpLayout();
      }
      storage := next;
    }

    method Insert(index: nat, v: Value)
      requires Valid() && Representable(v) && index <= |View()|
      modifies this
      ensures Valid() && LayoutFollows(old(LayoutNow()), LayoutNow())
      ensures View() == Inserted(old(View()), index, v)
      ensures StrategyOf(storage) ==
        if old(storage).Empty? then StrategyFor(v)
        else if old(storage).Objects? || StrategyFor(v) == StrategyOf(old(storage)) then StrategyOf(old(storage))
        else ObjectStrategy
      ensures layoutVersion == Bumped(old(layoutVersion))
    {
      hide Contents, InsertedIn, StrategyOf, StrategyFor;
      InsertedStrategy(storage, index, v);
      InsertedContents(storage, index, v);
      storage := InsertedIn(storage, index, v);
      BumpLayout();
    }

    method Remove(index: nat) returns (removed: Option<Value>)
      requires Valid()
      modifies this
      ensures Valid() && LayoutFollows(old(LayoutNow()), LayoutNow())
      ensures index < |old(View())| ==>
        && removed == Some(old(View())[index]) && View() == RemovedAt(old(View()), index)
        && layoutVersion == Bumped(old(layoutVersion)) && StrategyOf(storage) == StrategyOf(old(storage))
      ensures index >= |old(View())| ==> removed.None? && storage == old(storage) && layoutVersion == old(layoutVersion)
    {
      if index >= |Contents(storage)| {
        return None;
      }
      hide Contents, RemovedFrom, StrategyOf;
      RemovedStrategy(storage, index);
      removed := Some(Contents(storage)[index]);
      RemovedContents(storage, index);
      storage := RemovedFrom(storage, index);
      BumpLayout();
    }

    method ReplaceRange(low: nat, high: nat, replacement: seq<Value>)
      requires Valid() && AllRepresentable(replacement) && low <= high <= |View()|
      modifies this
      ensures Valid() && LayoutFollows(old(LayoutNow()), LayoutNow())
      ensures View() == Spliced(old(View()), low, high, replacement) && storage == StorageFromValues(View())
      ensures layoutVersion == Bumped(old(layoutVersion))
    {
      var values := Spliced(Contents(storage), low, high, replacement);
      assert AllRepresentable(values);
      StorageHolds(values);
      storage := StorageFromValues(values);
      BumpLayout();
    }

    method ReversePrefix(end: nat) returns (ok: bool)
      requires Valid()
      modifies this
      ensures Valid() && LayoutFollows(old(LayoutNow()), LayoutNow())
      ensures ok <==> end <= |old(View())|
      ensures ok ==> View() == Reversed(old(View())[..end]) + old(View())[end..] && layoutVersion == Bumped(old(layoutVersion))
      ensures ok ==> storage == StorageFromValues(View())
      ensures !ok ==> storage == old(storage) && layoutVersion == old(layoutVersion)
    {
      var values := Contents(storage);
      if end > |values| {
        return false;
      }
      values := Reversed(values[..end]) + values[end..];
      assert AllRepresentable(values);
      StorageHolds(values);
      storage := StorageFromValues(values);
      BumpLayout();
      return true;
    }

    // The integers, if the strategy shows that there is nothing else.
    method IntegerSnapshot() returns (snapshot: Option<(seq<int>, nat)>)
      requires Valid()
      ensures snapshot.Some? <==> storage.Ints? || storage.Empty?
      ensures snapshot.Some? ==> Contents(Ints(snapshot.value.0)) == View() && snapshot.value.1 == layoutVersion
    {
      match storage
      case Ints(is_) => return Some((is_, layoutVersion));
      case Empty => return Some(([], layoutVersion));
      case _ => return None;
    }

    // Written back only if nothing moved since the snapshot; then all at once.
    method CommitIntegerSnapshot(expected: nat, values: seq<int>) returns (ok: bool)
      requires Valid() && AllRepresentable(Contents(Ints(values)))
      modifies this
      ensures Valid() && LayoutFollows(old(LayoutNow()), LayoutNow())
      ensures ok <==> old(layoutVersion) == expected && (old(storage).Ints? || old(storage).Empty?)
      ensures ok ==> View() == Contents(Ints(values)) && layoutVersion == Bumped(expected)
      ensures !ok ==> storage == old(storage) && layoutVersion == old(layoutVersion)
    {
      if layoutVersion != expected || !(storage.Empty? || storage.Ints?) {
        return false;
      }
      storage := if values == [] then Empty else Ints(values);
      assert Contents(storage) == Contents(Ints(values));
      BumpLayout();
      return true;
    }
  }

  // A snapshot is accepted later only if strategy and length are still those that it
  // was taken from.
  lemma AcceptedIsCurrent(layouts: seq<Layout>, taken: nat, n: nat)
    requires taken <= n < |layouts| && layouts[taken].version < VERSION_MAX
    requires forall i :: 0 <= i < |layouts| - 1 ==> LayoutFollows(layouts[i], layouts[i + 1])
    requires layouts[n].version == layouts[taken].version
    ensures layouts[n] == layouts[taken]
  {
    LayoutFollowsAll(layouts[taken..], n - taken);
  }

  // The strategy takes the value in place.
  predicate Takes(s: Storage, v: Value) {
    s.Objects? || (s.Bools? && v.Bool?) || (s.Ints? && v.SmallInt?) || (s.Floats? && v.Float?)
  }

  // The version after an assignment.
  function VersionAssigned(s: Storage, index: nat, v: Value, version: nat): nat
    requires index < |Contents(s)|
  {
    if StrategyOf(Assigned(s, index, v)) == StrategyOf(s) then version else Bumped(version)
  }

  // Contents are another matter: an assignment changes them under the same version
  // exactly when the value is a new one there and either the strategy takes it or the
  // version is used up.
  lemma SameLayoutOtherContents(s: Storage, index: nat, v: Value, version: nat)
    requires ValidStorage(s) && Representable(v) && index < |Contents(s)| && version <= VERSION_MAX
    ensures VersionAssigned(s, index, v, version) == version && Contents(Assigned(s, index, v)) != Contents(s)
      <==> Contents(s)[index] != v && (Takes(s, v) || version == VERSION_MAX)
  {
    AssignedContents(s, index, v);
    assert StrategyOf(Assigned(s, index, v)) == StrategyOf(s) <==> Takes(s, v);
    assert Contents(s)[index := v] == Contents(s) <==> Contents(s)[index] == v by {
      assert Contents(s)[index := v][index] == v;
    }
  }
}
